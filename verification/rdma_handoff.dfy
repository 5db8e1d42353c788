/** The hand-off of prepared RDMA connections: every BeginSidebandStream call puts its request in the static
    members, and the two accept threads pair the sessions of its client. Calls of InitFromConnection are made one
    at a time; what overlapping ones do is the race of `RdmaConnect`. */
module RdmaHandoff {
  import opened ConnectionId
  import opened Options
  import opened RdmaConnect

  /** How far a client has come with its session in one direction. */
  datatype Side = Unneeded | Awaited | Connected | Arrived

  /** How far a stream has come. A stream is named by the call of NextConnectionId that made its id. */
  datatype Stage =
    | Queueing                          // in QueueSidebandConnection, without the permit
    | Storing(fields: nat)              // has the permit; this many of the seven members are stored
    | Offered(write: Side, read: Side)  // its client has been told the id
    | Complete                          // its session is registered and the permit given back

  datatype State = State(
    issued: nat,
    requests: map<nat, Request>,
    stages: map<nat, Stage>,
    pairing: Pairing,
    writeBacklog: seq<nat>,  // sessions not yet accepted on the two ports
    readBacklog: seq<nat>,
    completed: seq<nat>      // streams, in the order of their registrations
  )

  datatype Step =
    | Open(lowLatency: bool, waitForReader: bool, waitForWriter: bool, bufferSize: int)
    | Acquire(k: nat)
    | StoreField(k: nat)
    | Connect(k: nat, isWrite: bool)  // the client, once for each awaited direction, knowing its id
    | Accept(isWrite: bool)           // a whole call of InitFromConnection

  const FIELDS: nat := 7

  /** The session that the client of stream `k` connects in a direction. */
  function SessionOf(k: nat, isWrite: bool): nat {
    2 * k + if isWrite then 1 else 0
  }

  function OwnerOf(session: nat): nat {
    session / 2
  }

  function Init(next: Request): State {
    State(1, map[], map[], Pairing(1, None, None, next, []), [], [], [])
  }

  predicate At(s: State, k: nat, stage: Stage) {
    k in s.stages && s.stages[k] == stage
  }

  function SideOf(stage: Stage, isWrite: bool): Side
    requires stage.Offered?
  {
    if isWrite then stage.write else stage.read
  }

  function WithSide(stage: Stage, isWrite: bool, side: Side): Stage
    requires stage.Offered?
  {
    if isWrite then stage.(write := side) else stage.(read := side)
  }

  function Backlog(s: State, isWrite: bool): seq<nat> {
    if isWrite then s.writeBacklog else s.readBacklog
  }

  function WithBacklog(s: State, isWrite: bool, backlog: seq<nat>): State {
    if isWrite then s.(writeBacklog := backlog) else s.(readBacklog := backlog)
  }

  predicate Enabled(s: State, step: Step) {
    match step
    case Open(_, waitForReader, waitForWriter, _) => s.issued < INT_MAX && (waitForReader || waitForWriter)
    case Acquire(k) => At(s, k, Queueing) && s.pairing.permits > 0
    case StoreField(k) => k in s.stages && s.stages[k].Storing? && k in s.requests
    case Connect(k, isWrite) =>
      k in s.stages && s.stages[k].Offered? && SideOf(s.stages[k], isWrite).Awaited?
    case Accept(isWrite) => Backlog(s, isWrite) != []
  }

  /** The assignments of QueueSidebandConnection, in their order. */
  function StoreNth(p: Pairing, request: Request, n: nat): Pairing {
    match n
    case 0 => p.(pendingWrite := None)
    case 1 => p.(pendingRead := None)
    case 2 => p.(next := p.next.(lowLatency := request.lowLatency))
    case 3 => p.(next := p.next.(bufferSize := request.bufferSize))
    case 4 => p.(next := p.next.(waitForReader := request.waitForReader))
    case 5 => p.(next := p.next.(waitForWriter := request.waitForWriter))
    case _ => p.(next := p.next.(id := request.id))
  }

  function StageAfter(request: Request, fields: nat): Stage {
    if fields < FIELDS then Storing(fields)
    else Offered(if request.waitForWriter then Awaited else Unneeded,
                 if request.waitForReader then Awaited else Unneeded)
  }

  /** The request of a new stream, with the identifier made for it. */
  function NewRequest(k: nat, step: Step): Request
    requires step.Open?
  {
    Request(NthId(k), step.lowLatency, step.waitForReader, step.waitForWriter, step.bufferSize)
  }

  function MoveTo(s: State, k: nat, stage: Stage): State {
    s.(stages := s.stages[k := stage])
  }

  function Accepted(s: State, isWrite: bool): State
    requires Backlog(s, isWrite) != []
  {
    var session := Backlog(s, isWrite)[0];
    var k := OwnerOf(session);
    var arrival := Arrival(isWrite, session);
    var complete := s.pairing.Store(arrival).Complete();
    var s' := WithBacklog(s, isWrite, Backlog(s, isWrite)[1..]).(pairing := s.pairing.Accept(arrival));
    var s'' := if complete then s'.(completed := s.completed + [k]) else s';
    if k in s.stages && s.stages[k].Offered?
    then MoveTo(s'', k, if complete then Complete else WithSide(s.stages[k], isWrite, Arrived))
    else s''
  }

  function Apply(s: State, step: Step): State
    requires Enabled(s, step)
  {
    match step
    case Open(_, _, _, _) =>
      var k := s.issued + 1;
      MoveTo(s, k, Queueing).(
        issued := k,
        requests := s.requests[k := NewRequest(k, step)])
    case Acquire(k) => MoveTo(s, k, Storing(0)).(pairing := s.pairing.(permits := s.pairing.permits - 1))
    case StoreField(k) =>
      var n := s.stages[k].fields;
      MoveTo(s, k, StageAfter(s.requests[k], n + 1)).(pairing := StoreNth(s.pairing, s.requests[k], n))
    case Connect(k, isWrite) =>
      var s' := MoveTo(s, k, WithSide(s.stages[k], isWrite, Connected));
      WithBacklog(s', isWrite, Backlog(s, isWrite) + [SessionOf(k, isWrite)])
    case Accept(isWrite) => Accepted(s, isWrite)
  }

  /** Taking the permit and the seven assignments are the call of QueueSidebandConnection. */
  lemma StoresAreQueue(p: Pairing, request: Request)
    requires p.permits > 0
    ensures var p0 := p.(permits := p.permits - 1);
      var p3 := StoreNth(StoreNth(StoreNth(p0, request, 0), request, 1), request, 2);
      StoreNth(StoreNth(StoreNth(StoreNth(p3, request, 3), request, 4), request, 5), request, 6) == p.Queue(request)
  {
  }

  predicate Holds(stage: Stage) {
    stage.Storing? || stage.Offered?
  }

  ghost function Holders(s: State): set<nat> {
    set k | k in s.stages && Holds(s.stages[k])
  }

  /** Members stored so far, and no session of anybody about. */
  predicate StoringMatches(s: State, request: Request, n: nat) {
    var p := s.pairing;
    && n < FIELDS && s.writeBacklog == [] && s.readBacklog == []
    && (n > 0 ==> p.pendingWrite == None)
    && (n > 1 ==> p.pendingRead == None)
    && (n > 2 ==> p.next.lowLatency == request.lowLatency)
    && (n > 3 ==> p.next.bufferSize == request.bufferSize)
    && (n > 4 ==> p.next.waitForReader == request.waitForReader)
    && (n > 5 ==> p.next.waitForWriter == request.waitForWriter)
  }

  /** In one direction, the client's session is where its side says, and no other is about. */
  predicate SideMatches(side: Side, waits: bool, session: nat, backlog: seq<nat>, pending: Option<nat>) {
    && (side.Unneeded? <==> !waits)
    && backlog == (if side.Connected? then [session] else [])
    && pending == if side.Arrived? then Some(session) else None
  }

  predicate Settled(side: Side) {
    side.Unneeded? || side.Arrived?
  }

  predicate OfferedMatches(s: State, k: nat, request: Request, write: Side, read: Side) {
    && s.pairing.next == request
    && SideMatches(write, request.waitForWriter, SessionOf(k, true), s.writeBacklog, s.pairing.pendingWrite)
    && SideMatches(read, request.waitForReader, SessionOf(k, false), s.readBacklog, s.pairing.pendingRead)
    && !(Settled(write) && Settled(read))
  }

  predicate HolderMatches(s: State, k: nat)
    requires k in s.stages && k in s.requests
  {
    match s.stages[k]
    case Storing(n) => StoringMatches(s, s.requests[k], n)
    case Offered(write, read) => OfferedMatches(s, k, s.requests[k], write, read)
    case _ => false
  }

  ghost predicate StreamsInv(s: State) {
    && s.stages.Keys == s.requests.Keys
    && 1 <= s.issued <= INT_MAX
    && (forall k :: k in s.stages ==> 1 < k <= s.issued)
    && (forall k :: k in s.requests ==> s.requests[k].waitForReader || s.requests[k].waitForWriter)
  }

  /** The permit is in the semaphore, or with the one stream `holder`. */
  ghost predicate PermitInv(s: State, holder: int) {
    && (forall k :: k in s.stages && Holds(s.stages[k]) ==> k == holder)
    && (s.pairing.permits > 0 ==>
          s.pairing.permits == 1 && holder == -1 && s.writeBacklog == [] && s.readBacklog == [])
    && (s.pairing.permits == 0 ==>
          holder in s.stages && holder in s.requests && Holds(s.stages[holder]) && HolderMatches(s, holder))
  }

  /** What a stream's registration should be: its settings, and its own client's sessions. */
  function Own(request: Request, k: nat): Registration {
    Registration(request.id,
                 if request.waitForWriter then Some(SessionOf(k, true)) else None,
                 if request.waitForReader then Some(SessionOf(k, false)) else None,
                 request.lowLatency, request.bufferSize)
  }

  /** The registrations are those of the complete streams, one each. */
  ghost predicate RegisteredInv(s: State) {
    && |s.pairing.registered| == |s.completed|
    && (forall i :: 0 <= i < |s.completed| ==>
          var k := s.completed[i];
          At(s, k, Complete) && k in s.requests && s.pairing.registered[i] == Own(s.requests[k], k))
    && (forall i, j :: 0 <= i < j < |s.completed| ==> s.completed[i] != s.completed[j])
    && (forall k :: At(s, k, Complete) ==> k in s.completed)
  }

  /** Only a new call adds a request. */
  lemma RequestsStay(s: State, step: Step)
    requires Enabled(s, step) && !step.Open?
    ensures Apply(s, step).requests == s.requests && Apply(s, step).issued == s.issued
  {
  }

  lemma StreamsStay(s: State, step: Step)
    requires Enabled(s, step) && !step.Open?
    ensures Apply(s, step).stages.Keys == s.stages.Keys
  {
  }

  lemma OpenKeepsStreams(s: State, step: Step)
    requires StreamsInv(s) && Enabled(s, step) && step.Open?
    ensures StreamsInv(Apply(s, step))
  {
  }

  lemma StepKeepsStreams(s: State, step: Step)
    requires StreamsInv(s) && Enabled(s, step)
    ensures StreamsInv(Apply(s, step))
  {
    if step.Open? {
      OpenKeepsStreams(s, step);
    } else {
      RequestsStay(s, step);
      StreamsStay(s, step);
    }
  }

  lemma OpenKeepsPermit(s: State, step: Step, holder: int)
    requires StreamsInv(s) && PermitInv(s, holder) && Enabled(s, step) && step.Open?
    ensures PermitInv(Apply(s, step), holder)
  {
  }

  lemma AcquireKeepsPermit(s: State, k: nat, holder: int)
    requires StreamsInv(s) && PermitInv(s, holder) && Enabled(s, Acquire(k))
    ensures PermitInv(Apply(s, Acquire(k)), k)
  {
  }

  lemma StoreMatches(s: State, k: nat, request: Request, n: nat)
    requires StoringMatches(s, request, n) && (request.waitForReader || request.waitForWriter)
    ensures var s' := s.(pairing := StoreNth(s.pairing, request, n));
      if n + 1 < FIELDS then StoringMatches(s', request, n + 1)
      else
        var stage := StageAfter(request, n + 1);
        OfferedMatches(s', k, request, stage.write, stage.read)
  {
  }

  lemma StoreKeepsPermit(s: State, k: nat, holder: int)
    requires StreamsInv(s) && PermitInv(s, holder) && Enabled(s, StoreField(k))
    ensures holder == k && PermitInv(Apply(s, StoreField(k)), k)
  {
    assert HolderMatches(s, k);
    StoreMatches(s, k, s.requests[k], s.stages[k].fields);
    var s' := Apply(s, StoreField(k));
    OthersDoNotHold(s, s', holder, k, s'.stages[k]);
  }

  lemma ConnectKeepsPermit(s: State, k: nat, isWrite: bool, holder: int)
    requires StreamsInv(s) && PermitInv(s, holder) && Enabled(s, Connect(k, isWrite))
    ensures holder == k && PermitInv(Apply(s, Connect(k, isWrite)), k)
  {
  }

  /** A session that arrives is the holder's. */
  lemma AcceptsHolders(s: State, isWrite: bool, holder: int)
    requires PermitInv(s, holder) && Enabled(s, Accept(isWrite))
    ensures s.pairing.permits == 0 && holder in s.stages && holder in s.requests && s.stages[holder].Offered?
    ensures SideOf(s.stages[holder], isWrite).Connected?
    ensures Backlog(s, isWrite) == [SessionOf(holder, isWrite)] && OwnerOf(SessionOf(holder, isWrite)) == holder
  {
    assert HolderMatches(s, holder);
  }

  /** If it completes the pair, what is registered is the holder's. */
  lemma PairCompletes(s: State, k: nat, request: Request, stage: Stage, isWrite: bool)
    requires stage.Offered? && OfferedMatches(s, k, request, stage.write, stage.read)
    requires SideOf(stage, isWrite).Connected?
    ensures var p := s.pairing.Store(Arrival(isWrite, SessionOf(k, isWrite)));
      var stage' := WithSide(stage, isWrite, Arrived);
      && (p.Complete() <==> Settled(stage'.write) && Settled(stage'.read))
      && (p.Complete() ==>
            Own(request, k) ==
              Registration(p.next.id, p.pendingWrite, p.pendingRead, p.next.lowLatency, p.next.bufferSize))
  {
  }

  /** The state in which the call of InitFromConnection leaves the system. */
  function AfterAccept(s: State, isWrite: bool, k: nat, request: Request, stage: Stage): State
    requires stage.Offered?
  {
    var p := s.pairing.Store(Arrival(isWrite, SessionOf(k, isWrite)));
    var stage' := WithSide(stage, isWrite, Arrived);
    var s' := WithBacklog(s, isWrite, []);
    if Settled(stage'.write) && Settled(stage'.read)
    then MoveTo(s', k, Complete).(
           pairing := p.(permits := 1, registered := p.registered + [Own(request, k)]), completed := s.completed + [k])
    else MoveTo(s', k, stage').(pairing := p)
  }

  lemma AcceptEffect(s: State, isWrite: bool, holder: int)
    requires PermitInv(s, holder) && Enabled(s, Accept(isWrite))
    ensures s.pairing.permits == 0 && holder in s.stages && holder in s.requests && s.stages[holder].Offered?
    ensures OfferedMatches(s, holder, s.requests[holder], s.stages[holder].write, s.stages[holder].read)
    ensures SideOf(s.stages[holder], isWrite).Connected?
    ensures Apply(s, Accept(isWrite)) == AfterAccept(s, isWrite, holder, s.requests[holder], s.stages[holder])
  {
    AcceptsHolders(s, isWrite, holder);
    PairCompletes(s, holder, s.requests[holder], s.stages[holder], isWrite);
  }

  lemma OthersDoNotHold(s: State, s': State, holder: int, k: nat, stage: Stage)
    requires forall j :: j in s.stages && Holds(s.stages[j]) ==> j == holder
    requires holder == k && s'.stages == s.stages[k := stage]
    ensures forall j :: j in s'.stages && Holds(s'.stages[j]) ==> j == k && Holds(stage)
  {
  }

  lemma AcceptKeepsPermit(s: State, isWrite: bool, holder: int) returns (holder': int)
    requires PermitInv(s, holder) && Enabled(s, Accept(isWrite))
    ensures PermitInv(Apply(s, Accept(isWrite)), holder')
  {
    AcceptEffect(s, isWrite, holder);
    var s' := AfterAccept(s, isWrite, holder, s.requests[holder], s.stages[holder]);
    OthersDoNotHold(s, s', holder, holder, s'.stages[holder]);
    holder' := if s'.stages[holder].Complete? then -1 else holder;
  }

  lemma StepKeepsPermit(s: State, step: Step, holder: int) returns (holder': int)
    requires StreamsInv(s) && PermitInv(s, holder) && Enabled(s, step)
    ensures PermitInv(Apply(s, step), holder')
  {
    match step
    case Open(_, _, _, _) =>
      OpenKeepsPermit(s, step, holder);
      holder' := holder;
    case Acquire(k) =>
      AcquireKeepsPermit(s, k, holder);
      holder' := k;
    case StoreField(k) =>
      StoreKeepsPermit(s, k, holder);
      holder' := k;
    case Connect(k, isWrite) =>
      ConnectKeepsPermit(s, k, isWrite, holder);
      holder' := k;
    case Accept(isWrite) =>
      holder' := AcceptKeepsPermit(s, isWrite, holder);
  }

  lemma OpenRegistersNothing(s: State, step: Step)
    requires StreamsInv(s) && Enabled(s, step) && step.Open?
    ensures forall k :: At(Apply(s, step), k, Complete) <==> At(s, k, Complete)
    ensures forall k :: k in s.requests ==> k in Apply(s, step).requests && Apply(s, step).requests[k] == s.requests[k]
  {
  }

  lemma StreamRegistersNothing(s: State, step: Step)
    requires Enabled(s, step) && !step.Accept? && !step.Open?
    ensures forall k :: At(Apply(s, step), k, Complete) <==> At(s, k, Complete)
  {
  }

  lemma RegistrationsStay(s: State, step: Step)
    requires Enabled(s, step) && !step.Accept?
    ensures Apply(s, step).completed == s.completed && Apply(s, step).pairing.registered == s.pairing.registered
  {
  }

  lemma OthersKeepRegistered(s: State, step: Step)
    requires StreamsInv(s) && RegisteredInv(s) && Enabled(s, step) && !step.Accept?
    ensures RegisteredInv(Apply(s, step))
  {
    RegistrationsStay(s, step);
    if step.Open? {
      OpenRegistersNothing(s, step);
    } else {
      StreamRegistersNothing(s, step);
      RequestsStay(s, step);
    }
    RegisteredCarriesOver(s, Apply(s, step));
  }

  lemma RegisteredCarriesOver(s: State, s': State)
    requires RegisteredInv(s)
    requires s'.completed == s.completed && s'.pairing.registered == s.pairing.registered
    requires forall k :: At(s', k, Complete) <==> At(s, k, Complete)
    requires forall k :: k in s.requests ==> k in s'.requests && s'.requests[k] == s.requests[k]
    ensures RegisteredInv(s')
  {
  }

  lemma RegisteredGrows(s: State, s': State, k: nat)
    requires RegisteredInv(s) && k in s.stages && k in s.requests && s.stages[k].Offered?
    requires s'.completed == s.completed + [k] && s'.requests == s.requests
    requires s'.pairing.registered == s.pairing.registered + [Own(s.requests[k], k)]
    requires s'.stages == s.stages[k := Complete]
    ensures RegisteredInv(s')
  {
    assert !At(s, k, Complete);
    forall j | At(s', j, Complete)
      ensures j in s'.completed
    {
      if j == k {
        assert s'.completed[|s.completed|] == j;
      } else {
        assert At(s, j, Complete);
      }
    }
  }

  lemma AcceptKeepsRegistered(s: State, isWrite: bool, holder: int)
    requires PermitInv(s, holder) && RegisteredInv(s) && Enabled(s, Accept(isWrite))
    ensures RegisteredInv(Apply(s, Accept(isWrite)))
  {
    AcceptEffect(s, isWrite, holder);
    var s' := Apply(s, Accept(isWrite));
    if s'.stages[holder].Complete? {
      RegisteredGrows(s, s', holder);
    } else {
      RegisteredCarriesOver(s, s');
    }
  }

  lemma StepKeepsInv(s: State, step: Step, holder: int) returns (holder': int)
    requires StreamsInv(s) && PermitInv(s, holder) && RegisteredInv(s) && Enabled(s, step)
    ensures StreamsInv(Apply(s, step)) && PermitInv(Apply(s, step), holder') && RegisteredInv(Apply(s, step))
  {
    if step.Accept? {
      AcceptKeepsRegistered(s, step.isWrite, holder);
    } else {
      OthersKeepRegistered(s, step);
    }
    StepKeepsStreams(s, step);
    holder' := StepKeepsPermit(s, step, holder);
  }

  ghost predicate Run(next: Request, steps: seq<Step>, states: seq<State>) {
    && |states| == |steps| + 1
    && states[0] == Init(next)
    && forall i :: 0 <= i < |steps| ==> Enabled(states[i], steps[i]) && states[i + 1] == Apply(states[i], steps[i])
  }

  lemma {:induction false} RunKeepsInv(next: Request, steps: seq<Step>, states: seq<State>) returns (holder: int)
    requires Run(next, steps, states)
    ensures StreamsInv(states[|steps|]) && PermitInv(states[|steps|], holder) && RegisteredInv(states[|steps|])
  {
    var n := |steps|;
    if n == 0 {
      holder := -1;
    } else {
      holder := RunKeepsInv(next, steps[..n - 1], states[..n]);
      holder := StepKeepsInv(states[n - 1], steps[n - 1], holder);
    }
  }

  /** The permits in the semaphore and the streams holding one always add up to one. */
  lemma PermitIsConserved(next: Request, steps: seq<Step>, states: seq<State>)
    requires Run(next, steps, states)
    ensures states[|steps|].pairing.permits + |Holders(states[|steps|])| == 1
  {
    var holder := RunKeepsInv(next, steps, states);
    var s := states[|steps|];
    if s.pairing.permits == 0 {
      assert Holders(s) == {holder as nat};
    } else {
      assert Holders(s) == {};
    }
  }

  /** The BeginSidebandStream calls along a run. */
  ghost function Opened(steps: seq<Step>): (calls: seq<Step>)
    ensures forall i :: 0 <= i < |calls| ==> calls[i].Open?
  {
    if steps == [] then []
    else
      var earlier, last := Opened(steps[..|steps| - 1]), steps[|steps| - 1];
      if last.Open? then earlier + [last] else earlier
  }

  /** The call made by a step stands behind the calls made before. */
  lemma {:induction false} OpenedAt(steps: seq<Step>, i: nat)
    requires i < |steps|
    ensures |Opened(steps[..i])| + (if steps[i].Open? then 1 else 0) <= |Opened(steps)|
    ensures steps[i].Open? ==> Opened(steps)[|Opened(steps[..i])|] == steps[i]
  {
    var n := |steps| - 1;
    if i < n {
      OpenedAt(steps[..n], i);
      assert steps[..n][..i] == steps[..i];
    }
  }

  /** Stream `k` is call number `k - 2`, counted from 0, and has that call's request. */
  ghost predicate RequestsAre(s: State, calls: seq<Step>)
    requires forall i :: 0 <= i < |calls| ==> calls[i].Open?
  {
    && s.issued == |calls| + 1
    && (forall k :: k in s.requests <==> 2 <= k < |calls| + 2)
    && (forall k :: k in s.requests ==> s.requests[k] == NewRequest(k, calls[k - 2]))
  }

  lemma OpenAddsRequest(s: State, step: Step, calls: seq<Step>)
    requires forall i :: 0 <= i < |calls| ==> calls[i].Open?
    requires RequestsAre(s, calls) && Enabled(s, step) && step.Open?
    ensures RequestsAre(Apply(s, step), calls + [step])
  {
    var s' := Apply(s, step);
    assert s'.requests == s.requests[s.issued + 1 := NewRequest(s.issued + 1, step)];
  }

  lemma {:induction false} RequestsAreTheCallers(next: Request, steps: seq<Step>, states: seq<State>)
    requires Run(next, steps, states)
    ensures RequestsAre(states[|steps|], Opened(steps))
  {
    var n := |steps|;
    if n > 0 {
      RequestsAreTheCallers(next, steps[..n - 1], states[..n]);
      if steps[n - 1].Open? {
        OpenAddsRequest(states[n - 1], steps[n - 1], Opened(steps[..n - 1]));
      } else {
        RequestsStay(states[n - 1], steps[n - 1]);
      }
    }
  }

  /** In every run of any number of streams: each registration is that of a stream of its own, with the settings
      and the identifier of the call that opened the stream and precisely the sessions its client connected; the
      streams not registered are those not complete. */
  lemma EveryStreamRegistersOnce(next: Request, steps: seq<Step>, states: seq<State>)
    requires Run(next, steps, states)
    ensures var s := states[|steps|];
      && |s.pairing.registered| == |s.completed|
      && (forall i :: 0 <= i < |s.completed| ==>
            var k := s.completed[i];
            2 <= k < |Opened(steps)| + 2 && k <= INT_MAX)
      && (forall i :: 0 <= i < |s.completed| ==>
            var k := s.completed[i];
            var registration, call := s.pairing.registered[i], Opened(steps)[k - 2];
            && registration.id == NthId(k)
            && registration.write == (if call.waitForWriter then Some(SessionOf(k, true)) else None)
            && registration.read == (if call.waitForReader then Some(SessionOf(k, false)) else None)
            && registration.lowLatency == call.lowLatency && registration.bufferSize == call.bufferSize)
      && (forall i, j :: 0 <= i < j < |s.completed| ==> s.completed[i] != s.completed[j])
      && (forall k :: k in s.completed <==> At(s, k, Complete))
  {
    var holder := RunKeepsInv(next, steps, states);
    RequestsAreTheCallers(next, steps, states);
  }

  /** So with calls one at a time the duplicate-id assertion of RegisterSidebandData never fires. */
  lemma RegisteredIdsAreDistinct(next: Request, steps: seq<Step>, states: seq<State>)
    requires Run(next, steps, states)
    ensures var registered := states[|steps|].pairing.registered;
      forall i, j :: 0 <= i < j < |registered| ==> registered[i].id != registered[j].id
  {
    EveryStreamRegistersOnce(next, steps, states);
    var s, calls := states[|steps|], Opened(steps);
    forall i, j | 0 <= i < j < |s.completed|
      ensures s.pairing.registered[i].id != s.pairing.registered[j].id
    {
      var k, l := s.completed[i], s.completed[j];
      IdsDistinct(k, l);
    }
  }

  /** As long as a stream is not complete, some thread or client can take a step of the hand-off. */
  lemma HandoffNeverBlocks(next: Request, steps: seq<Step>, states: seq<State>, k: nat)
    requires Run(next, steps, states)
    requires k in states[|steps|].stages && !At(states[|steps|], k, Complete)
    ensures exists step: Step :: !step.Open? && Enabled(states[|steps|], step)
  {
    var h := RunKeepsInv(next, steps, states);
    var s := states[|steps|];
    var step :=
      if s.pairing.permits > 0 then Acquire(k)
      else match s.stages[h]
        case Storing(_) => StoreField(h)
        case Offered(write, read) =>
          if write.Awaited? then Connect(h, true)
          else if write.Connected? then Accept(true)
          else if read.Awaited? then Connect(h, false)
          else Accept(false)
        case _ => Acquire(k);
    assert !step.Open? && Enabled(s, step);
  }

  function SideProgress(side: Side): nat {
    match side
    case Unneeded => 2
    case Awaited => 0
    case Connected => 1
    case Arrived => 2
  }

  /** How much of the hand-off a stream has behind it. */
  function Progress(stage: Stage): nat {
    match stage
    case Queueing => 0
    case Storing(n) => 1 + n
    case Offered(write, read) => 1 + FIELDS + SideProgress(write) + SideProgress(read)
    case Complete => 5 + FIELDS
  }

  lemma StreamAdvances(s: State, step: Step, holder: int)
    requires StreamsInv(s) && PermitInv(s, holder) && s.pairing.permits == 0
    requires Enabled(s, step) && (step.StoreField? || step.Connect?)
    ensures step.k == holder && holder in Apply(s, step).stages
    ensures Apply(s, step).stages == s.stages[holder := Apply(s, step).stages[holder]]
    ensures Progress(s.stages[holder]) < Progress(Apply(s, step).stages[holder]) < 5 + FIELDS
    ensures Apply(s, step).pairing.permits == 0
  {
    assert HolderMatches(s, holder);
  }

  lemma AcceptAdvances(s: State, isWrite: bool, holder: int)
    requires PermitInv(s, holder) && Enabled(s, Accept(isWrite))
    ensures var s' := Apply(s, Accept(isWrite));
      && holder in s.stages && holder in s'.stages
      && s'.stages == s.stages[holder := s'.stages[holder]]
      && Progress(s.stages[holder]) < Progress(s'.stages[holder]) <= 5 + FIELDS
      && s'.pairing.permits == if s'.stages[holder].Complete? then 1 else 0
  {
    AcceptEffect(s, isWrite, holder);
  }

  /** While a stream holds the permit, every step of the hand-off is its own and gets it on, through at most
      twelve steps; the last one gives the permit back. */
  lemma HolderAdvances(s: State, step: Step, holder: int)
    requires StreamsInv(s) && PermitInv(s, holder) && s.pairing.permits == 0 && Enabled(s, step) && !step.Open?
    ensures holder in s.stages && holder in Apply(s, step).stages
    ensures Apply(s, step).stages == s.stages[holder := Apply(s, step).stages[holder]]
    ensures Progress(s.stages[holder]) < Progress(Apply(s, step).stages[holder]) <= 5 + FIELDS
    ensures Apply(s, step).pairing.permits == if At(Apply(s, step), holder, Complete) then 1 else 0
  {
    if step.Accept? {
      AcceptAdvances(s, step.isWrite, holder);
    } else {
      StreamAdvances(s, step, holder);
    }
  }
}
