/** Pairing the two halves of an RDMA connection: one accept thread brings sending sessions, another brings
    receiving sessions, and whoever finds all awaited halves present registers the pair. */
module RdmaConnect {
  import opened Options
  import opened Strategies

  datatype Request = Request(id: string, lowLatency: bool, waitForReader: bool, waitForWriter: bool, bufferSize: int)

  datatype Registration = Registration(
    id: string,
    write: Option<nat>,
    read: Option<nat>,
    lowLatency: bool,
    bufferSize: int
  )

  /** An accepted session and its direction. */
  datatype Arrival = Arrival(isWrite: bool, session: nat)

  /** The static members of `RdmaSidebandDataImp`, and the calls of RegisterSidebandData made. */
  datatype Pairing = Pairing(
    permits: nat,
    pendingWrite: Option<nat>,
    pendingRead: Option<nat>,
    next: Request,
    registered: seq<Registration>
  ) {
    function Queue(request: Request): Pairing
      requires permits > 0
    {
      this.(permits := permits - 1, pendingWrite := None, pendingRead := None, next := request)
    }

    function Store(a: Arrival): Pairing {
      if a.isWrite then this.(pendingWrite := Some(a.session)) else this.(pendingRead := Some(a.session))
    }

    predicate Complete() {
      (pendingWrite.Some? || !next.waitForWriter) && (pendingRead.Some? || !next.waitForReader)
    }

    function Accept(a: Arrival): Pairing {
      var p := Store(a);
      if p.Complete() then
        p.(registered := p.registered +
             [Registration(p.next.id, p.pendingWrite, p.pendingRead, p.next.lowLatency, p.next.bufferSize)],
           permits := p.permits + 1)
      else p
    }

    /** Whole calls of InitFromConnection, one after the other. */
    function AcceptAll(arrivals: seq<Arrival>): Pairing {
      if arrivals == [] then this
      else AcceptAll(arrivals[..|arrivals| - 1]).Accept(arrivals[|arrivals| - 1])
    }
  }

  /** The session that arrived last in a direction, if any did. */
  function Latest(arrivals: seq<Arrival>, isWrite: bool): Option<nat> {
    if arrivals == [] then None
    else
      var last := arrivals[|arrivals| - 1];
      if last.isWrite == isWrite then Some(last.session) else Latest(arrivals[..|arrivals| - 1], isWrite)
  }

  /** The latest session is the one that arrived last in that direction, and is missing only if none arrived. */
  lemma {:induction false} LatestExactly(arrivals: seq<Arrival>, isWrite: bool) returns (i: nat)
    ensures Latest(arrivals, isWrite) == None ==> forall j :: 0 <= j < |arrivals| ==> arrivals[j].isWrite != isWrite
    ensures Latest(arrivals, isWrite).Some? ==>
      && i < |arrivals| && arrivals[i] == Arrival(isWrite, Latest(arrivals, isWrite).value)
      && forall j :: i < j < |arrivals| ==> arrivals[j].isWrite != isWrite
  {
    i := 0;
    if arrivals != [] {
      var n := |arrivals| - 1;
      var earlier := arrivals[..n];
      i := LatestExactly(earlier, isWrite);
      if arrivals[n].isWrite == isWrite {
        i := n;
      } else {
        assert forall j :: 0 <= j < n ==> arrivals[j] == earlier[j];
      }
    }
  }

  predicate AllArrived(request: Request, arrivals: seq<Arrival>) {
    && (request.waitForWriter ==> Latest(arrivals, true).Some?)
    && (request.waitForReader ==> Latest(arrivals, false).Some?)
  }

  /** How many arrivals found everything awaited present. */
  function Completions(request: Request, arrivals: seq<Arrival>): nat {
    if arrivals == [] then 0
    else Completions(request, arrivals[..|arrivals| - 1]) + if AllArrived(request, arrivals) then 1 else 0
  }

  /** Whatever arrives after a request was queued: the pending halves are the latest arrivals since then,
      and there is one registration, and one permit more, per arrival that finds the pair complete. */
  lemma {:induction false} AcceptedSinceQueueing(p: Pairing, request: Request, arrivals: seq<Arrival>)
    requires p.permits > 0
    ensures var q := p.Queue(request).AcceptAll(arrivals);
      && q.next == request
      && q.pendingWrite == Latest(arrivals, true) && q.pendingRead == Latest(arrivals, false)
      && q.permits == p.permits - 1 + Completions(request, arrivals)
      && |q.registered| == |p.registered| + Completions(request, arrivals)
      && p.registered <= q.registered
      && (arrivals != [] && AllArrived(request, arrivals) ==>
            q.registered[|q.registered| - 1] ==
              Registration(request.id, Latest(arrivals, true), Latest(arrivals, false),
                           request.lowLatency, request.bufferSize))
  {
    if arrivals != [] {
      AcceptedSinceQueueing(p, request, arrivals[..|arrivals| - 1]);
    }
  }

  lemma {:induction false} LatestStays(arrivals: seq<Arrival>, more: seq<Arrival>, isWrite: bool)
    requires Latest(arrivals, isWrite).Some?
    ensures Latest(arrivals + more, isWrite).Some?
  {
    if more == [] {
      assert arrivals + more == arrivals;
    } else {
      assert (arrivals + more)[..|arrivals + more| - 1] == arrivals + more[..|more| - 1];
      LatestStays(arrivals, more[..|more| - 1], isWrite);
    }
  }

  lemma {:induction false} NoCompletionBefore(request: Request, arrivals: seq<Arrival>)
    requires !AllArrived(request, arrivals)
    ensures Completions(request, arrivals) == 0
  {
    if arrivals != [] {
      var earlier := arrivals[..|arrivals| - 1];
      assert arrivals == earlier + [arrivals[|arrivals| - 1]];
      if AllArrived(request, earlier) {
        var last := [arrivals[|arrivals| - 1]];
        if request.waitForWriter { LatestStays(earlier, last, true); }
        if request.waitForReader { LatestStays(earlier, last, false); }
      }
      NoCompletionBefore(request, earlier);
    }
  }

  lemma {:induction false} CompletionsNotFewer(request: Request, arrivals: seq<Arrival>, n: nat)
    requires n <= |arrivals|
    ensures Completions(request, arrivals[..n]) <= Completions(request, arrivals)
  {
    if n < |arrivals| {
      CompletionsNotFewer(request, arrivals[..|arrivals| - 1], n);
      assert arrivals[..|arrivals| - 1][..n] == arrivals[..n];
    } else {
      assert arrivals[..n] == arrivals;
    }
  }

  /** A request is registered exactly once exactly when its last awaited half is the last session to arrive. */
  lemma RegistersOnceExactly(p: Pairing, request: Request, arrivals: seq<Arrival>)
    requires p.permits > 0 && arrivals != []
    ensures |p.Queue(request).AcceptAll(arrivals).registered| == |p.registered| + 1 <==>
      AllArrived(request, arrivals) &&
      (|arrivals| == 1 || !AllArrived(request, arrivals[..|arrivals| - 1]))
  {
    AcceptedSinceQueueing(p, request, arrivals);
    var earlier := arrivals[..|arrivals| - 1];
    if !AllArrived(request, arrivals) {
      NoCompletionBefore(request, arrivals);
    } else if |arrivals| > 1 {
      if !AllArrived(request, earlier) {
        NoCompletionBefore(request, earlier);
      }
    } else {
      assert Completions(request, earlier) == 0;
    }
  }

  /** A stream and the sessions that arrived for it. */
  datatype Episode = Episode(request: Request, arrivals: seq<Arrival>)

  /** At least one direction is awaited, and one session arrives for each awaited direction, in any order. */
  predicate OneEach(e: Episode) {
    match (e.request.waitForWriter, e.request.waitForReader)
    case (true, true) => |e.arrivals| == 2 && e.arrivals[0].isWrite != e.arrivals[1].isWrite
    case (true, false) => |e.arrivals| == 1 && e.arrivals[0].isWrite
    case (false, true) => |e.arrivals| == 1 && !e.arrivals[0].isWrite
    case (false, false) => false
  }

  function Expected(e: Episode): Registration {
    Registration(e.request.id, Latest(e.arrivals, true), Latest(e.arrivals, false),
                 e.request.lowLatency, e.request.bufferSize)
  }

  lemma OneEachCompletesOnce(e: Episode)
    requires OneEach(e)
    ensures AllArrived(e.request, e.arrivals) && Completions(e.request, e.arrivals) == 1
    ensures forall a :: a in e.arrivals ==> Latest(e.arrivals, a.isWrite) == Some(a.session)
  {
    var a, first := e.arrivals, [e.arrivals[0]];
    assert first[..0] == [];
    if |a| == 1 {
      assert a == first;
    } else {
      assert a[..1] == first;
      assert Latest(first, !first[0].isWrite) == None;
      NoCompletionBefore(e.request, first);
    }
  }

  lemma EpisodeRegistersOnce(p: Pairing, e: Episode)
    requires p.permits == 1 && OneEach(e)
    ensures var q := p.Queue(e.request).AcceptAll(e.arrivals);
      q.permits == 1 && q.registered == p.registered + [Expected(e)]
    ensures Expected(e).id == e.request.id
    ensures Expected(e).lowLatency == e.request.lowLatency && Expected(e).bufferSize == e.request.bufferSize
    ensures forall a :: a in e.arrivals ==>
      (if a.isWrite then Expected(e).write else Expected(e).read) == Some(a.session)
    ensures !e.request.waitForWriter ==> Expected(e).write == None
    ensures !e.request.waitForReader ==> Expected(e).read == None
  {
    AcceptedSinceQueueing(p, e.request, e.arrivals);
    var a := e.arrivals;
    OneEachCompletesOnce(e);
    var q := p.Queue(e.request).AcceptAll(a);
    assert q.registered[..|p.registered|] == p.registered;
    assert q.registered == q.registered[..|p.registered|] + [q.registered[|p.registered|]];
  }

  /** The static members of `RdmaSidebandDataImp` as fields; `registered` are the calls of
      RegisterSidebandData made. */
  class RdmaConnector {
    var permits: nat
    var pendingWriteSession: Option<nat>
    var pendingReadSession: Option<nat>
    var nextConnectLowLatency: bool
    var nextConnectBufferSize: int
    var waitForReaderConnection: bool
    var waitForWriteConnection: bool
    var nextConnectionId: string
    var registered: seq<Registration>

    function View(): Pairing
      reads this
    {
      var next := Request(nextConnectionId, nextConnectLowLatency,
                          waitForReaderConnection, waitForWriteConnection, nextConnectBufferSize);
      Pairing(permits, pendingWriteSession, pendingReadSession, next, registered)
    }

    constructor ()
      ensures permits == 1 && registered == []
    {
      permits, registered := 1, [];
      pendingWriteSession, pendingReadSession := None, None;
      nextConnectLowLatency, nextConnectBufferSize, nextConnectionId := false, 0, "";
      waitForReaderConnection, waitForWriteConnection := false, false;
    }

    /** From the moment the semaphore lets the caller through. */
    method QueueSidebandConnection(strategy: Strategy, id: string, waitForReader: bool, waitForWriter: bool,
                                   bufferSize: int)
      requires permits > 0
      modifies this
      ensures permits == old(permits) - 1 && pendingWriteSession == pendingReadSession == None
      ensures nextConnectLowLatency == (strategy == RdmaLowLatency)
      ensures nextConnectBufferSize == bufferSize && nextConnectionId == id
      ensures waitForReaderConnection == waitForReader && waitForWriteConnection == waitForWriter
      ensures registered == old(registered)
      ensures View() ==
        old(View()).Queue(Request(id, strategy == RdmaLowLatency, waitForReader, waitForWriter, bufferSize))
    {
      permits := permits - 1;
      pendingWriteSession := None;
      pendingReadSession := None;
      nextConnectLowLatency := strategy == RdmaLowLatency;
      nextConnectBufferSize := bufferSize;
      waitForReaderConnection := waitForReader;
      waitForWriteConnection := waitForWriter;
      nextConnectionId := id;
    }

    method InitFromConnection(connectedSession: nat, isWriteSession: bool) returns (created: Option<Registration>)
      modifies this
      ensures pendingWriteSession == if isWriteSession then Some(connectedSession) else old(pendingWriteSession)
      ensures pendingReadSession == if isWriteSession then old(pendingReadSession) else Some(connectedSession)
      ensures created.Some? <==>
        && (waitForWriteConnection ==> pendingWriteSession.Some?)
        && (waitForReaderConnection ==> pendingReadSession.Some?)
      ensures created.Some? ==>
        && created.value.id == nextConnectionId
        && created.value.write == pendingWriteSession && created.value.read == pendingReadSession
        && created.value.lowLatency == nextConnectLowLatency && created.value.bufferSize == nextConnectBufferSize
      ensures registered == old(registered) + if created.Some? then [created.value] else []
      ensures permits == old(permits) + if created.Some? then 1 else 0
      ensures View() == old(View()).Accept(Arrival(isWriteSession, connectedSession))
    {
      if isWriteSession {
        pendingWriteSession := Some(connectedSession);
      } else {
        pendingReadSession := Some(connectedSession);
      }
      if
        && (pendingWriteSession.Some? || !waitForWriteConnection)
        && (pendingReadSession.Some? || !waitForReaderConnection)
      {
        var data := Registration(nextConnectionId, pendingWriteSession, pendingReadSession,
                                 nextConnectLowLatency, nextConnectBufferSize);
        registered := registered + [data];
        permits := permits + 1;
        return Some(data);
      }
      return None;
    }
  }

  /** The two calls of InitFromConnection for one request in which both halves are awaited, step by step:
      a thread stores its own session, looks at the sending half, then at the receiving half, and if both are
      there, registers the pair and notifies. */
  datatype Pc = Ready | Stored | SawWrite | Decided | Registered | Returned(created: bool)

  /** A thread with the session it brings, its place, and when it stored its session and when it decided
      whether to register (-1: not yet). */
  datatype Thread = Thread(session: nat, pc: Pc, stored: int, decided: int)

  datatype Race = Race(pairing: Pairing, send: Thread, receive: Thread, clock: nat)

  /** Moves of the thread for sending (or else receiving) sessions. */
  datatype Move =
    | StoreSession(isWrite: bool)
    | LookAtWrite(isWrite: bool)
    | LookAtRead(isWrite: bool)
    | Register(isWrite: bool)
    | Notify(isWrite: bool)

  function Start(p: Pairing, request: Request, write: nat, read: nat): Race
    requires p.permits > 0
  {
    Race(p.Queue(request), Thread(write, Ready, -1, -1), Thread(read, Ready, -1, -1), 0)
  }

  function Mover(r: Race, m: Move): Thread {
    if m.isWrite then r.send else r.receive
  }

  predicate CanMove(r: Race, m: Move) {
    var pc := Mover(r, m).pc;
    match m
    case StoreSession(_) => pc.Ready?
    case LookAtWrite(_) => pc.Stored?
    case LookAtRead(_) => pc.SawWrite?
    case Register(_) => pc.Decided?
    case Notify(_) => pc.Registered?
  }

  function Moved(t: Thread, m: Move, r: Race): Thread {
    var p := r.pairing;
    match m
    case StoreSession(_) => t.(pc := Stored, stored := r.clock)
    case LookAtWrite(_) =>
      if p.pendingWrite.Some? || !p.next.waitForWriter then t.(pc := SawWrite)
      else t.(pc := Returned(false), decided := r.clock)
    case LookAtRead(_) =>
      if p.pendingRead.Some? || !p.next.waitForReader then t.(pc := Decided, decided := r.clock)
      else t.(pc := Returned(false), decided := r.clock)
    case Register(_) => t.(pc := Registered)
    case Notify(_) => t.(pc := Returned(true))
  }

  function PairingAfter(p: Pairing, t: Thread, m: Move): Pairing {
    match m
    case StoreSession(isWrite) => p.Store(Arrival(isWrite, t.session))
    case Register(_) =>
      p.(registered := p.registered +
           [Registration(p.next.id, p.pendingWrite, p.pendingRead, p.next.lowLatency, p.next.bufferSize)])
    case Notify(_) => p.(permits := p.permits + 1)
    case _ => p
  }

  function Make(r: Race, m: Move): Race
    requires CanMove(r, m)
  {
    Race(PairingAfter(r.pairing, Mover(r, m), m),
         if m.isWrite then Moved(r.send, m, r) else r.send,
         if m.isWrite then r.receive else Moved(r.receive, m, r),
         r.clock + 1)
  }

  /** What a thread has seen is what the other had stored by then. */
  ghost predicate ThreadInv(t: Thread, other: Thread, clock: nat) {
    && t.stored < clock && t.decided < clock
    && (t.pc.Ready? <==> t.stored < 0)
    && (t.pc.Ready? || t.pc.Stored? || t.pc.SawWrite? <==> t.decided < 0)
    && (t.decided >= 0 ==> t.stored < t.decided)
    && (t.pc == Returned(false) ==> other.stored < 0 || t.decided < other.stored)
    && (t.decided >= 0 && t.pc != Returned(false) ==> 0 <= other.stored < t.decided)
  }

  /** How many registrations, and how many permits, a thread has made. */
  function Made(t: Thread): nat {
    if t.pc.Registered? || t.pc == Returned(true) then 1 else 0
  }

  function Given(t: Thread): nat {
    if t.pc == Returned(true) then 1 else 0
  }

  function Expects(request: Request, write: nat, read: nat): Registration {
    Registration(request.id, Some(write), Some(read), request.lowLatency, request.bufferSize)
  }

  function PendingOf(t: Thread): Option<nat> {
    if t.stored >= 0 then Some(t.session) else None
  }

  ghost predicate ThreadsInv(r: Race) {
    && ThreadInv(r.send, r.receive, r.clock)
    && ThreadInv(r.receive, r.send, r.clock)
    && (r.receive.pc.SawWrite? ==> r.send.stored >= 0)
  }

  ghost predicate RaceInv(r: Race, p: Pairing, request: Request, write: nat, read: nat) {
    && ThreadsInv(r)
    && r.send.session == write && r.receive.session == read
    && r.pairing.next == request && request.waitForWriter && request.waitForReader
    && r.pairing.pendingWrite == PendingOf(r.send) && r.pairing.pendingRead == PendingOf(r.receive)
    && r.pairing.permits == p.permits - 1 + Given(r.send) + Given(r.receive)
    && r.pairing.registered == p.registered + seq(Made(r.send) + Made(r.receive), _ => Expects(request, write, read))
  }

  lemma MoveKeepsThreads(r: Race, m: Move, p: Pairing, request: Request, write: nat, read: nat)
    requires RaceInv(r, p, request, write, read) && CanMove(r, m)
    ensures ThreadsInv(Make(r, m))
  {
  }

  lemma MoveKeepsRaceInv(r: Race, m: Move, p: Pairing, request: Request, write: nat, read: nat)
    requires RaceInv(r, p, request, write, read) && CanMove(r, m)
    ensures RaceInv(Make(r, m), p, request, write, read)
  {
    MoveKeepsThreads(r, m, p, request, write, read);
    if m.Register? {
      var n := Made(r.send) + Made(r.receive);
      var expected := Expects(request, write, read);
      assert seq(n + 1, _ => expected) == seq(n, _ => expected) + [expected];
    }
  }

  /** The threads' moves after the request was queued. */
  ghost predicate RaceRun(p: Pairing, request: Request, write: nat, read: nat, moves: seq<Move>, races: seq<Race>) {
    && p.permits > 0 && request.waitForWriter && request.waitForReader
    && |races| == |moves| + 1
    && races[0] == Start(p, request, write, read)
    && forall i :: 0 <= i < |moves| ==> CanMove(races[i], moves[i]) && races[i + 1] == Make(races[i], moves[i])
  }

  lemma {:induction false} RaceRunKeepsInv(p: Pairing, request: Request, write: nat, read: nat, moves: seq<Move>,
                                           races: seq<Race>)
    requires RaceRun(p, request, write, read, moves, races)
    ensures RaceInv(races[|moves|], p, request, write, read)
  {
    var n := |moves|;
    if n > 0 {
      RaceRunKeepsInv(p, request, write, read, moves[..n - 1], races[..n]);
      MoveKeepsRaceInv(races[n - 1], moves[n - 1], p, request, write, read);
    }
  }

  /** Under every interleaving RegisterSidebandData is called with the pair, precisely the two sessions. It is
      called twice, and two permits are given back for the one taken, exactly when each thread stored its session
      before the other decided. The second call is for an identifier in the table: with assertions compiled in
      the process stops there. */
  lemma AtLeastOneRegisters(p: Pairing, request: Request, write: nat, read: nat, moves: seq<Move>, races: seq<Race>)
    requires RaceRun(p, request, write, read, moves, races)
    requires races[|moves|].send.pc.Returned? && races[|moves|].receive.pc.Returned?
    ensures var r := races[|moves|];
      var expected := Registration(request.id, Some(write), Some(read), request.lowLatency, request.bufferSize);
      var overlap := r.send.stored < r.receive.decided && r.receive.stored < r.send.decided;
      && r.pairing.registered == p.registered + (if overlap then [expected, expected] else [expected])
      && r.pairing.permits == p.permits + (if overlap then 1 else 0)
      && (r.send.pc.created && r.receive.pc.created <==> overlap)
  {
    RaceRunKeepsInv(p, request, write, read, moves, races);
  }

  /** A thread that nobody interrupts does what a whole call of InitFromConnection does. */
  lemma WholeCallIsAccept(r: Race, isWrite: bool)
    requires Mover(r, StoreSession(isWrite)).pc.Ready?
    ensures var r1 := Make(r, StoreSession(isWrite));
      var r2 := Make(r1, LookAtWrite(isWrite));
      var t2 := Mover(r2, LookAtRead(isWrite));
      var r3 := if t2.pc.SawWrite? then Make(r2, LookAtRead(isWrite)) else r2;
      var t3 := Mover(r3, Register(isWrite));
      var r4 := if t3.pc.Decided? then Make(Make(r3, Register(isWrite)), Notify(isWrite)) else r3;
      && Mover(r4, Notify(isWrite)).pc.Returned?
      && r4.pairing == r.pairing.Accept(Arrival(isWrite, Mover(r, StoreSession(isWrite)).session))
  {
  }

  lemma ExtendRace(p: Pairing, request: Request, write: nat, read: nat, moves: seq<Move>, races: seq<Race>, m: Move)
      returns (moves': seq<Move>, races': seq<Race>)
    requires RaceRun(p, request, write, read, moves, races) && CanMove(races[|moves|], m)
    ensures RaceRun(p, request, write, read, moves', races') && races'[|moves'|] == Make(races[|moves|], m)
  {
    moves', races' := moves + [m], races + [Make(races[|moves|], m)];
  }

  /** Such an interleaving exists for every request, assertions compiled out: both threads store, and then both
      look. */
  lemma BothMayRegister(p: Pairing, request: Request, write: nat, read: nat)
      returns (moves: seq<Move>, races: seq<Race>)
    requires p.permits > 0 && request.waitForWriter && request.waitForReader
    ensures RaceRun(p, request, write, read, moves, races)
    ensures races[|moves|].send.pc == races[|moves|].receive.pc == Returned(true)
    ensures races[|moves|].pairing.permits == p.permits + 1
  {
    moves, races := [], [Start(p, request, write, read)];
    moves, races := ExtendRace(p, request, write, read, moves, races, StoreSession(true));
    moves, races := ExtendRace(p, request, write, read, moves, races, StoreSession(false));
    moves, races := ExtendRace(p, request, write, read, moves, races, LookAtWrite(true));
    moves, races := ExtendRace(p, request, write, read, moves, races, LookAtRead(true));
    moves, races := ExtendRace(p, request, write, read, moves, races, LookAtWrite(false));
    moves, races := ExtendRace(p, request, write, read, moves, races, LookAtRead(false));
    moves, races := ExtendRace(p, request, write, read, moves, races, Register(true));
    moves, races := ExtendRace(p, request, write, read, moves, races, Notify(true));
    moves, races := ExtendRace(p, request, write, read, moves, races, Register(false));
    moves, races := ExtendRace(p, request, write, read, moves, races, Notify(false));
  }
}
