/** The hand-off of prepared socket connections: every BeginSidebandStream call puts its request in the one
    static slot, and the accept loop builds the session for the next client from that slot. */
module SocketConnect {
  import opened ConnectionId
  import opened Options

  datatype Request = Request(lowLatency: bool, bufferSize: int)

  /** `_nextConnectLowLatency`, `_nextConnectBufferSize` and `_nextConnectionId`. */
  datatype Slot = Slot(lowLatency: bool, bufferSize: int, id: string)

  /** A registered session; `client` is the stream whose client connected it. */
  datatype Session = Session(client: nat, id: string, lowLatency: bool, bufferSize: int)

  /** How far a stream has come. A stream is named by the call of NextConnectionId that made its id. */
  datatype Stage =
    | Queueing                // in QueueSidebandConnection, without the permit
    | Storing(fields: nat)    // has the permit; this many of the three fields are stored
    | Offered                 // the response with the id has been returned to the client
    | Connected               // its client has connected
    | Accepted                // the accept loop is working on its socket
    | Published               // its session is registered, the permit not given back yet
    | Complete

  /** InitFromConnection: a socket, then the two values read from the slot, then the id read from the
      socket, then the registered session. */
  datatype Acceptor =
    | Idle
    | GotSocket(client: nat)
    | GotLatency(client: nat, lowLatency: bool)
    | GotSize(client: nat, lowLatency: bool, bufferSize: int)
    | GotId(session: Session)
    | Registered(session: Session)

  datatype State = State(
    issued: nat,                // calls of NextConnectionId so far
    requests: map<nat, Request>,
    stages: map<nat, Stage>,
    count: nat,                 // `_connectQueue`
    slot: Slot,
    backlog: seq<nat>,          // connections not yet accepted, by stream
    acceptor: Acceptor,
    registry: map<string, Session>
  )

  datatype Step =
    | Open(request: Request)  // BeginSidebandStream up to the semaphore
    | Acquire(k: nat)         // Semaphore::wait
    | StoreLatency(k: nat)
    | StoreSize(k: nat)
    | StoreId(k: nat)         // and BeginSidebandStream returns
    | Connect(k: nat)         // the client, once, knowing its id
    | Accept
    | LoadLatency
    | LoadSize
    | ReadId
    | Register
    | Notify
    | Close(id: string)       // by the stream's owner, some time later
    | Stray(k: nat)           // somebody else connects and sends identifier number k

  function Init(slot: Slot): State {
    State(1, map[], map[], 1, slot, [], Idle, map[])
  }

  predicate At(s: State, k: nat, stage: Stage) {
    k in s.stages && s.stages[k] == stage
  }

  predicate Enabled(s: State, step: Step) {
    match step
    case Open(_) => s.issued < INT_MAX
    case Acquire(k) => At(s, k, Queueing) && s.count > 0
    case StoreLatency(k) => At(s, k, Storing(0)) && k in s.requests
    case StoreSize(k) => At(s, k, Storing(1)) && k in s.requests
    case StoreId(k) => At(s, k, Storing(2))
    case Connect(k) => At(s, k, Offered)
    case Accept => s.acceptor.Idle? && s.backlog != []
    case LoadLatency => s.acceptor.GotSocket?
    case LoadSize => s.acceptor.GotLatency?
    case ReadId => s.acceptor.GotSize?
    case Register => s.acceptor.GotId?
    case Notify => s.acceptor.Registered?
    case Close(id) => id in s.registry
    case Stray(_) => true
  }

  function MoveTo(s: State, k: nat, stage: Stage): State {
    s.(stages := s.stages[k := stage])
  }

  /** `emplace`: an entry that is there stays. (The source asserts that there is none; an assertion that is
      compiled in stops the process there.) */
  function Emplace(registry: map<string, Session>, session: Session): map<string, Session> {
    if session.id in registry then registry else registry[session.id := session]
  }

  /** Connections differ only in the identifier they send: the first that is accepted with a stream's identifier,
      after its client has connected, counts as that client's. */
  function Advance(s: State, k: nat, from: Stage, to: Stage): State {
    if At(s, k, from) then MoveTo(s, k, to) else s
  }

  function Apply(s: State, step: Step): State
    requires Enabled(s, step)
  {
    match step
    case Open(request) =>
      var k := s.issued + 1;
      MoveTo(s, k, Queueing).(issued := k, requests := s.requests[k := request])
    case Acquire(k) => MoveTo(s, k, Storing(0)).(count := s.count - 1)
    case StoreLatency(k) => MoveTo(s, k, Storing(1)).(slot := s.slot.(lowLatency := s.requests[k].lowLatency))
    case StoreSize(k) => MoveTo(s, k, Storing(2)).(slot := s.slot.(bufferSize := s.requests[k].bufferSize))
    case StoreId(k) => MoveTo(s, k, Offered).(slot := s.slot.(id := NthId(k)))
    case Connect(k) => MoveTo(s, k, Connected).(backlog := s.backlog + [k])
    case Accept =>
      Advance(s, s.backlog[0], Connected, Accepted).(backlog := s.backlog[1..], acceptor := GotSocket(s.backlog[0]))
    case LoadLatency => s.(acceptor := GotLatency(s.acceptor.client, s.slot.lowLatency))
    case LoadSize => s.(acceptor := GotSize(s.acceptor.client, s.acceptor.lowLatency, s.slot.bufferSize))
    case ReadId =>
      var a := s.acceptor;
      s.(acceptor := GotId(Session(a.client, NthId(a.client), a.lowLatency, a.bufferSize)))
    case Register =>
      var session := s.acceptor.session;
      Advance(s, session.client, Accepted, Published).(
        registry := Emplace(s.registry, session), acceptor := Registered(session))
    case Notify =>
      Advance(s, s.acceptor.session.client, Published, Complete).(count := s.count + 1, acceptor := Idle)
    case Close(id) => s.(registry := s.registry - {id})
    case Stray(k) => s.(backlog := s.backlog + [k])
  }

  /** A stream that has taken the permit and for which it has not been given back. */
  predicate Holds(stage: Stage) {
    !stage.Queueing? && !stage.Complete?
  }

  ghost function Holders(s: State): set<nat> {
    set k | k in s.stages && Holds(s.stages[k])
  }

  predicate SlotIs(slot: Slot, request: Request, id: string) {
    slot == Slot(request.lowLatency, request.bufferSize, id)
  }

  /** What the accept loop has in hand is what the slot said, and the slot is the accepted client's. */
  predicate AcceptorMatches(a: Acceptor, k: nat, request: Request) {
    match a
    case Idle => false
    case GotSocket(c) => c == k
    case GotLatency(c, l) => c == k && l == request.lowLatency
    case GotSize(c, l, n) => c == k && l == request.lowLatency && n == request.bufferSize
    case GotId(session) => session == Session(k, NthId(k), request.lowLatency, request.bufferSize)
    case Registered(_) => false
  }

  /** Where slot, backlog and acceptor stand while stream `k` has the permit. */
  predicate HolderMatches(s: State, k: nat)
    requires k in s.stages && k in s.requests
  {
    var request := s.requests[k];
    match s.stages[k]
    case Queueing => false
    case Complete => false
    case Storing(n) =>
      && n <= 2 && s.backlog == [] && s.acceptor.Idle?
      && (n >= 1 ==> s.slot.lowLatency == request.lowLatency)
      && (n >= 2 ==> s.slot.bufferSize == request.bufferSize)
    case Offered => s.backlog == [] && s.acceptor.Idle? && SlotIs(s.slot, request, NthId(k))
    case Connected => s.backlog == [k] && s.acceptor.Idle? && SlotIs(s.slot, request, NthId(k))
    case Accepted =>
      s.backlog == [] && AcceptorMatches(s.acceptor, k, request) && SlotIs(s.slot, request, NthId(k))
    case Published => s.backlog == [] && s.acceptor.Registered? && s.acceptor.session.client == k
  }

  /** The permit is in the semaphore, or with the one stream `holder`. */
  ghost predicate PermitInv(s: State, holder: int) {
    && s.stages.Keys == s.requests.Keys
    && 1 <= s.issued <= INT_MAX
    && (forall k :: k in s.stages ==> 1 < k <= s.issued)
    && (forall k :: k in s.stages && Holds(s.stages[k]) ==> k == holder)
    && (s.count > 0 ==> s.count == 1 && holder == -1 && s.backlog == [] && s.acceptor.Idle?)
    && (s.count == 0 ==> holder in s.stages && Holds(s.stages[holder]) && HolderMatches(s, holder))
  }

  predicate WasPublished(s: State, k: nat) {
    k in s.stages && (s.stages[k].Published? || s.stages[k].Complete?)
  }

  /** A session registered under an id belongs to the stream with that id, whose client connected it, and
      has the flag and the buffer size that were queued for that stream. */
  ghost predicate RegistryInv(s: State) {
    forall id :: id in s.registry ==> SessionOf(s, id)
  }

  predicate SessionOf(s: State, id: string)
    requires id in s.registry
  {
    var k := s.registry[id].client;
    && WasPublished(s, k) && k in s.requests
    && id == NthId(k)
    && s.registry[id] == Session(k, id, s.requests[k].lowLatency, s.requests[k].bufferSize)
  }

  predicate HandsOff(step: Step) {
    !step.Open? && !step.Close? && !step.Stray?
  }

  /** A step of the accept loop, rather than of a stream or its client. */
  predicate OfAcceptLoop(step: Step) {
    step in {Accept, LoadLatency, LoadSize, ReadId, Register, Notify}
  }

  lemma OthersKeepPermit(s: State, step: Step, holder: int)
    requires PermitInv(s, holder) && Enabled(s, step) && !HandsOff(step) && !step.Stray?
    ensures PermitInv(Apply(s, step), holder)
  {
  }

  lemma AcquireKeepsPermit(s: State, k: nat, holder: int)
    requires PermitInv(s, holder) && Enabled(s, Acquire(k))
    ensures PermitInv(Apply(s, Acquire(k)), k)
  {
  }

  lemma StoresKeepPermit(s: State, step: Step, holder: int)
    requires PermitInv(s, holder) && Enabled(s, step) && (step.StoreLatency? || step.StoreSize? || step.StoreId?)
    ensures PermitInv(Apply(s, step), step.k)
  {
  }

  lemma ConnectKeepsPermit(s: State, k: nat, holder: int)
    requires PermitInv(s, holder) && Enabled(s, Connect(k))
    ensures PermitInv(Apply(s, Connect(k)), k)
  {
  }

  lemma StreamKeepsPermit(s: State, step: Step, holder: int)
    requires PermitInv(s, holder) && Enabled(s, step) && HandsOff(step) && !OfAcceptLoop(step)
    ensures PermitInv(Apply(s, step), step.k)
  {
    match step
    case Acquire(k) => AcquireKeepsPermit(s, k, holder);
    case Connect(k) => ConnectKeepsPermit(s, k, holder);
    case _ => StoresKeepPermit(s, step, holder);
  }

  lemma LoadsKeepPermit(s: State, step: Step, holder: int)
    requires PermitInv(s, holder) && Enabled(s, step) && (step.LoadLatency? || step.LoadSize? || step.ReadId?)
    ensures Apply(s, step) == s.(acceptor := Apply(s, step).acceptor)
    ensures PermitInv(Apply(s, step), holder)
  {
  }

  lemma AcceptKeepsPermit(s: State, holder: int)
    requires PermitInv(s, holder) && Enabled(s, Accept)
    ensures PermitInv(Apply(s, Accept), holder)
  {
  }

  lemma RegisterKeepsPermit(s: State, holder: int)
    requires PermitInv(s, holder) && Enabled(s, Register)
    ensures PermitInv(Apply(s, Register), holder)
  {
  }

  lemma NotifyKeepsPermit(s: State, holder: int)
    requires PermitInv(s, holder) && Enabled(s, Notify)
    ensures PermitInv(Apply(s, Notify), -1)
  {
  }

  lemma AcceptLoopKeepsPermit(s: State, step: Step, holder: int)
    requires PermitInv(s, holder) && Enabled(s, step) && OfAcceptLoop(step)
    ensures PermitInv(Apply(s, step), if step.Notify? then -1 else holder)
  {
    match step
    case Accept => AcceptKeepsPermit(s, holder);
    case Register => RegisterKeepsPermit(s, holder);
    case Notify => NotifyKeepsPermit(s, holder);
    case _ => LoadsKeepPermit(s, step, holder);
  }

  lemma StepKeepsPermit(s: State, step: Step, holder: int) returns (holder': int)
    requires PermitInv(s, holder) && Enabled(s, step) && !step.Stray?
    ensures PermitInv(Apply(s, step), holder')
  {
    if !HandsOff(step) {
      OthersKeepPermit(s, step, holder);
      holder' := holder;
    } else if OfAcceptLoop(step) {
      AcceptLoopKeepsPermit(s, step, holder);
      holder' := if step.Notify? then -1 else holder;
    } else {
      StreamKeepsPermit(s, step, holder);
      holder' := step.k;
    }
  }

  /** The identifiers of different streams are different. */
  lemma OtherIdsDiffer(s: State, holder: int, k: nat)
    requires PermitInv(s, holder) && k in s.stages
    ensures forall j :: j in s.stages && j != k ==> NthId(j) != NthId(k)
  {
    forall j | j in s.stages && j != k
      ensures NthId(j) != NthId(k)
    {
      IdsDistinct(j, k);
    }
  }

  /** What registering does to a state in which a stream holds the permit. */
  lemma RegisterEffect(s: State, holder: int)
    requires PermitInv(s, holder) && Enabled(s, Register)
    ensures holder in s.stages && holder in s.requests && !WasPublished(s, holder)
    ensures s.acceptor.session ==
      Session(holder, NthId(holder), s.requests[holder].lowLatency, s.requests[holder].bufferSize)
    ensures s.slot.id == NthId(holder)
    ensures var s' := Apply(s, Register);
      && s'.requests == s.requests
      && s'.stages == s.stages[holder := Published]
      && s'.registry == Emplace(s.registry, s.acceptor.session)
  {
  }

  /** The source asserts that the id it registers is not in the table: it never is. */
  lemma RegisterFindsIdFree(s: State, holder: int)
    requires PermitInv(s, holder) && RegistryInv(s) && Enabled(s, Register)
    ensures s.acceptor.session.id == s.slot.id == NthId(holder) && NthId(holder) !in s.registry
  {
    RegisterEffect(s, holder);
    OtherIdsDiffer(s, holder, holder);
    forall id | id in s.registry
      ensures id != NthId(holder)
    {
      assert SessionOf(s, id);
    }
  }

  /** Steps of streams and clients register and unregister nothing. */
  lemma StreamPublishesNothing(s: State, step: Step, holder: int)
    requires PermitInv(s, holder) && Enabled(s, step) && !step.Close? && !step.Stray? && !OfAcceptLoop(step)
    ensures Apply(s, step).registry == s.registry
    ensures forall k :: WasPublished(Apply(s, step), k) <==> WasPublished(s, k)
  {
  }

  lemma AcceptPublishesNothing(s: State)
    requires Enabled(s, Accept)
    ensures Apply(s, Accept).registry == s.registry
    ensures forall k :: WasPublished(Apply(s, Accept), k) <==> WasPublished(s, k)
  {
  }

  lemma NotifyPublishesNothing(s: State)
    requires Enabled(s, Notify)
    ensures Apply(s, Notify).registry == s.registry
    ensures forall k :: WasPublished(Apply(s, Notify), k) <==> WasPublished(s, k)
  {
  }

  lemma AcceptLoopPublishesNothing(s: State, step: Step, holder: int)
    requires PermitInv(s, holder) && Enabled(s, step) && OfAcceptLoop(step) && !step.Register?
    ensures Apply(s, step).registry == s.registry
    ensures forall k :: WasPublished(Apply(s, step), k) <==> WasPublished(s, k)
  {
    match step
    case Accept => AcceptPublishesNothing(s);
    case Notify => NotifyPublishesNothing(s);
    case _ => LoadsKeepPermit(s, step, holder);
  }

  /** A request never changes once it is there. */
  lemma StepKeepsOldRequests(s: State, step: Step, holder: int)
    requires PermitInv(s, holder) && Enabled(s, step)
    ensures forall k :: k in s.requests ==> k in Apply(s, step).requests && Apply(s, step).requests[k] == s.requests[k]
  {
  }

  lemma RegisterKeepsRegistry(s: State, holder: int)
    requires PermitInv(s, holder) && RegistryInv(s) && Enabled(s, Register)
    ensures RegistryInv(Apply(s, Register))
  {
    RegisterEffect(s, holder);
    var s' := Apply(s, Register);
    forall id | id in s'.registry
      ensures SessionOf(s', id)
    {
      assert id != NthId(holder) ==> SessionOf(s, id);
    }
  }

  lemma CloseKeepsRegistry(s: State, id: string)
    requires RegistryInv(s) && Enabled(s, Close(id))
    ensures RegistryInv(Apply(s, Close(id)))
  {
    var s' := Apply(s, Close(id));
    forall other | other in s'.registry
      ensures SessionOf(s', other)
    {
      assert SessionOf(s, other);
    }
  }

  lemma SessionsCarryOver(s: State, s': State)
    requires RegistryInv(s) && s'.registry == s.registry
    requires forall k :: WasPublished(s', k) <==> WasPublished(s, k)
    requires forall k :: k in s.requests ==> k in s'.requests && s'.requests[k] == s.requests[k]
    ensures RegistryInv(s')
  {
    forall id | id in s'.registry
      ensures SessionOf(s', id)
    {
      assert SessionOf(s, id);
    }
  }

  lemma StepKeepsRegistry(s: State, step: Step, holder: int)
    requires PermitInv(s, holder) && RegistryInv(s) && Enabled(s, step) && !step.Stray?
    ensures RegistryInv(Apply(s, step))
  {
    if step.Register? {
      RegisterKeepsRegistry(s, holder);
    } else if step.Close? {
      CloseKeepsRegistry(s, step.id);
    } else {
      if OfAcceptLoop(step) {
        AcceptLoopPublishesNothing(s, step, holder);
      } else {
        StreamPublishesNothing(s, step, holder);
      }
      StepKeepsOldRequests(s, step, holder);
      SessionsCarryOver(s, Apply(s, step));
    }
  }

  /** Any run, with stray connections or without. */
  ghost predicate Trace(slot: Slot, steps: seq<Step>, states: seq<State>) {
    && |states| == |steps| + 1
    && states[0] == Init(slot)
    && forall i :: 0 <= i < |steps| ==> Enabled(states[i], steps[i]) && states[i + 1] == Apply(states[i], steps[i])
  }

  /** A run in which each client connects once, after it has been told its identifier, and nobody else does. */
  ghost predicate Run(slot: Slot, steps: seq<Step>, states: seq<State>) {
    Trace(slot, steps, states) && forall i :: 0 <= i < |steps| ==> !steps[i].Stray?
  }

  lemma {:induction false} RunKeepsInv(slot: Slot, steps: seq<Step>, states: seq<State>) returns (holder: int)
    requires Run(slot, steps, states)
    ensures PermitInv(states[|steps|], holder) && RegistryInv(states[|steps|])
  {
    var n := |steps|;
    if n == 0 {
      holder := -1;
    } else {
      holder := RunKeepsInv(slot, steps[..n - 1], states[..n]);
      StepKeepsRegistry(states[n - 1], steps[n - 1], holder);
      holder := StepKeepsPermit(states[n - 1], steps[n - 1], holder);
    }
  }

  /** The accept loop gives back a permit that no stream holds. */
  predicate ServesStray(s: State, step: Step) {
    step.Notify? && Enabled(s, step) && !At(s, s.acceptor.session.client, Published)
  }

  ghost function StraysServed(steps: seq<Step>, states: seq<State>): nat
    requires |states| == |steps| + 1
  {
    if steps == [] then 0
    else
      var n := |steps| - 1;
      StraysServed(steps[..n], states[..n + 1]) + if ServesStray(states[n], steps[n]) then 1 else 0
  }

  lemma StageSet(s: State, k: nat, stage: Stage)
    ensures Holders(MoveTo(s, k, stage)) == if Holds(stage) then Holders(s) + {k} else Holders(s) - {k}
  {
  }

  /** The stage to which a step moves a stream, if it moves one. */
  ghost function Moves(s: State, step: Step): (m: Option<(nat, Stage)>)
    requires Enabled(s, step)
    ensures Apply(s, step).stages == if m.Some? then s.stages[m.value.0 := m.value.1] else s.stages
  {
    match step
    case Open(_) => Some((s.issued + 1, Queueing))
    case Acquire(k) => Some((k, Storing(0)))
    case StoreLatency(k) => Some((k, Storing(1)))
    case StoreSize(k) => Some((k, Storing(2)))
    case StoreId(k) => Some((k, Offered))
    case Connect(k) => Some((k, Connected))
    case Accept => if At(s, s.backlog[0], Connected) then Some((s.backlog[0], Accepted)) else None
    case Register =>
      var k := s.acceptor.session.client;
      if At(s, k, Accepted) then Some((k, Published)) else None
    case Notify =>
      var k := s.acceptor.session.client;
      if At(s, k, Published) then Some((k, Complete)) else None
    case _ => None
  }

  /** Only taking the permit makes a holder, and only giving it back unmakes one. */
  lemma HoldersAfter(s: State, step: Step)
    requires Enabled(s, step) && forall k :: k in s.stages ==> k <= s.issued
    ensures Holders(Apply(s, step)) ==
      if step.Acquire? then Holders(s) + {step.k}
      else if step.Notify? && !ServesStray(s, step) then Holders(s) - {s.acceptor.session.client}
      else Holders(s)
  {
    var m := Moves(s, step);
    if m.Some? {
      StageSet(s, m.value.0, m.value.1);
      assert Holders(Apply(s, step)) == Holders(MoveTo(s, m.value.0, m.value.1));
    } else {
      assert Holders(Apply(s, step)) == Holders(s);
    }
  }

  lemma CountAfter(s: State, step: Step)
    requires Enabled(s, step)
    ensures Apply(s, step).count == s.count + (if step.Notify? then 1 else 0) - (if step.Acquire? then 1 else 0)
    ensures Apply(s, step).issued == s.issued + if step.Open? then 1 else 0
  {
  }

  lemma HoldersCounted(s: State, step: Step)
    requires Enabled(s, step) && forall k :: k in s.stages ==> k <= s.issued
    ensures |Holders(Apply(s, step))| == |Holders(s)| + (if step.Acquire? then 1 else 0)
                                       - (if step.Notify? && !ServesStray(s, step) then 1 else 0)
  {
    HoldersAfter(s, step);
    if step.Acquire? {
      assert step.k !in Holders(s);
    } else if step.Notify? && !ServesStray(s, step) {
      assert s.acceptor.session.client in Holders(s);
    }
  }

  lemma StepKeepsIssued(s: State, step: Step)
    requires Enabled(s, step) && forall k :: k in s.stages ==> k <= s.issued
    ensures forall k :: k in Apply(s, step).stages ==> k <= Apply(s, step).issued
  {
    var m := Moves(s, step);
    CountAfter(s, step);
  }

  /** The semaphore's count and the streams holding the permit add up to one more than the permits that were
      given back for no stream. */
  lemma {:induction false} HoldersBalance(slot: Slot, steps: seq<Step>, states: seq<State>)
    requires Trace(slot, steps, states)
    ensures forall k :: k in states[|steps|].stages ==> k <= states[|steps|].issued
    ensures states[|steps|].count + |Holders(states[|steps|])| == 1 + StraysServed(steps, states)
  {
    var n := |steps|;
    if n == 0 {
      assert Holders(states[0]) == {};
    } else {
      HoldersBalance(slot, steps[..n - 1], states[..n]);
      HoldersCounted(states[n - 1], steps[n - 1]);
      CountAfter(states[n - 1], steps[n - 1]);
      StepKeepsIssued(states[n - 1], steps[n - 1]);
    }
  }

  /** A stream that has taken the permit and whose client has not connected yet. */
  predicate Awaits(stage: Stage) {
    stage.Storing? || stage.Offered?
  }

  ghost function Awaiting(s: State): set<nat> {
    set k | k in s.stages && Awaits(s.stages[k])
  }

  lemma AwaitingSet(s: State, k: nat, stage: Stage)
    ensures Awaiting(MoveTo(s, k, stage)) == if Awaits(stage) then Awaiting(s) + {k} else Awaiting(s) - {k}
  {
  }

  /** Connections that the accept loop is at work on: one at a time. */
  function Busy(s: State): nat {
    if s.acceptor.Idle? then 0 else 1
  }

  lemma AwaitingAfter(s: State, step: Step)
    requires Enabled(s, step) && forall k :: k in s.stages ==> k <= s.issued
    ensures Awaiting(Apply(s, step)) ==
      if step.Acquire? then Awaiting(s) + {step.k} else if step.Connect? then Awaiting(s) - {step.k} else Awaiting(s)
  {
    var m := Moves(s, step);
    if m.Some? {
      AwaitingSet(s, m.value.0, m.value.1);
      assert Awaiting(Apply(s, step)) == Awaiting(MoveTo(s, m.value.0, m.value.1));
    } else {
      assert Awaiting(Apply(s, step)) == Awaiting(s);
    }
  }

  lemma LoopAfter(s: State, step: Step)
    requires Enabled(s, step)
    ensures |Apply(s, step).backlog| ==
      |s.backlog| + (if step.Connect? || step.Stray? then 1 else 0) - (if step.Accept? then 1 else 0)
    ensures Busy(Apply(s, step)) == Busy(s) + (if step.Accept? then 1 else 0) - (if step.Notify? then 1 else 0)
  {
  }

  function Permits(s: State): int {
    s.count + |s.backlog| + Busy(s)
  }

  lemma StepBalances(s: State, step: Step)
    requires Enabled(s, step) && forall k :: k in s.stages ==> k <= s.issued
    ensures Permits(Apply(s, step)) + |Awaiting(Apply(s, step))| ==
      Permits(s) + |Awaiting(s)| + if step.Stray? then 1 else 0
  {
    AwaitingAfter(s, step);
    CountAfter(s, step);
    LoopAfter(s, step);
    if step.Acquire? {
      assert step.k !in Awaiting(s);
    } else if step.Connect? {
      assert step.k in Awaiting(s);
    }
  }

  function Strays(steps: seq<Step>): nat {
    if steps == [] then 0
    else Strays(steps[..|steps| - 1]) + if steps[|steps| - 1].Stray? then 1 else 0
  }

  /** In every run whatsoever: the permits in the semaphore, the streams that wait for their client with one, and
      the connections that will bring one back are one more than the stray connections made. */
  lemma {:induction false} PermitBalance(slot: Slot, steps: seq<Step>, states: seq<State>)
    requires Trace(slot, steps, states)
    ensures forall k :: k in states[|steps|].stages ==> k <= states[|steps|].issued
    ensures var s := states[|steps|];
      var working := if s.acceptor.Idle? then 0 else 1;
      s.count + |s.backlog| + working + |Awaiting(s)| == 1 + Strays(steps)
  {
    var n := |steps|;
    if n == 0 {
      assert Awaiting(states[0]) == {};
    } else {
      PermitBalance(slot, steps[..n - 1], states[..n]);
      StepBalances(states[n - 1], steps[n - 1]);
      StepKeepsIssued(states[n - 1], steps[n - 1]);
    }
  }

  /** So of the stray connections made, those not yet served are the connections at the accept loop that are of
      no stream: once the loop has worked off its connections, each has left its permit. */
  lemma StraysServedExactly(slot: Slot, steps: seq<Step>, states: seq<State>)
    requires Trace(slot, steps, states)
    ensures var s := states[|steps|];
      StraysServed(steps, states) == Strays(steps) - (|s.backlog| + Busy(s) - |Holders(s) - Awaiting(s)|)
  {
    var s := states[|steps|];
    HoldersBalance(slot, steps, states);
    PermitBalance(slot, steps, states);
    assert Awaiting(s) <= Holders(s);
    assert Holders(s) == Awaiting(s) + (Holders(s) - Awaiting(s));
  }

  lemma NotifyIsTheHolders(s: State, step: Step, holder: int)
    requires PermitInv(s, holder) && Enabled(s, step)
    ensures !ServesStray(s, step)
  {
  }

  lemma LastStepServesNoStray(slot: Slot, steps: seq<Step>, states: seq<State>)
    requires Run(slot, steps, states) && steps != []
    ensures !ServesStray(states[|steps| - 1], steps[|steps| - 1])
  {
    var n := |steps| - 1;
    var holder := RunKeepsInv(slot, steps[..n], states[..n + 1]);
    NotifyIsTheHolders(states[n], steps[n], holder);
  }

  lemma {:induction false} NoStraysServed(slot: Slot, steps: seq<Step>, states: seq<State>)
    requires Run(slot, steps, states)
    ensures StraysServed(steps, states) == 0
  {
    var n := |steps|;
    if n > 0 {
      NoStraysServed(slot, steps[..n - 1], states[..n]);
      LastStepServesNoStray(slot, steps, states);
    }
  }

  /** So while nobody strays, there is exactly one permit. */
  lemma PermitIsConserved(slot: Slot, steps: seq<Step>, states: seq<State>)
    requires Run(slot, steps, states)
    ensures states[|steps|].count + |Holders(states[|steps|])| == 1
  {
    HoldersBalance(slot, steps, states);
    NoStraysServed(slot, steps, states);
  }

  /** In every run of any number of streams, a session found under an id has the latency flag and buffer size
      of the BeginSidebandStream call that handed out that id, and talks to the client that was given it. */
  lemma SessionsMatchRequests(slot: Slot, steps: seq<Step>, states: seq<State>, id: string)
    requires Run(slot, steps, states) && id in states[|steps|].registry
    ensures var s := states[|steps|]; var session := s.registry[id];
      && id == session.id == NthId(session.client)
      && 2 <= session.client < |Opened(steps)| + 2
      && Request(session.lowLatency, session.bufferSize) == Opened(steps)[session.client - 2]
  {
    var holder := RunKeepsInv(slot, steps, states);
    RequestsAreTheCallers(slot, steps, states);
  }

  /** The requests of the BeginSidebandStream calls along a run. */
  ghost function Opened(steps: seq<Step>): seq<Request> {
    if steps == [] then []
    else
      var last := steps[|steps| - 1];
      Opened(steps[..|steps| - 1]) + if last.Open? then [last.request] else []
  }

  /** The call made by a step stands behind the calls made before. */
  lemma {:induction false} OpenedAt(steps: seq<Step>, i: nat)
    requires i < |steps|
    ensures |Opened(steps[..i])| + (if steps[i].Open? then 1 else 0) <= |Opened(steps)|
    ensures steps[i].Open? ==> Opened(steps)[|Opened(steps[..i])|] == steps[i].request
  {
    var n := |steps| - 1;
    if i < n {
      OpenedAt(steps[..n], i);
      assert steps[..n][..i] == steps[..i];
    }
  }

  /** Stream `k` is call number `k - 2`, counted from 0, and has that call's request. */
  ghost predicate RequestsAre(s: State, calls: seq<Request>) {
    && s.issued == |calls| + 1
    && (forall k :: k in s.requests <==> 2 <= k < |calls| + 2)
    && (forall k :: k in s.requests ==> s.requests[k] == calls[k - 2])
  }

  lemma StepKeepsRequests(s: State, step: Step, calls: seq<Request>)
    requires RequestsAre(s, calls) && Enabled(s, step)
    ensures RequestsAre(Apply(s, step), calls + if step.Open? then [step.request] else [])
  {
    if !step.Open? {
      assert Apply(s, step).requests == s.requests && Apply(s, step).issued == s.issued;
    }
  }

  /** No step but a new call changes which request belongs to which identifier. */
  lemma {:induction false} RequestsAreTheCallers(slot: Slot, steps: seq<Step>, states: seq<State>)
    requires Run(slot, steps, states)
    ensures RequestsAre(states[|steps|], Opened(steps))
  {
    var n := |steps|;
    if n > 0 {
      RequestsAreTheCallers(slot, steps[..n - 1], states[..n]);
      StepKeepsRequests(states[n - 1], steps[n - 1], Opened(steps[..n - 1]));
    }
  }

  /** The streams whose sessions have been closed. */
  ghost function ClosedStreams(steps: seq<Step>, states: seq<State>): set<nat>
    requires |states| == |steps| + 1
  {
    if steps == [] then {}
    else
      var n := |steps| - 1;
      ClosedStreams(steps[..n], states[..n + 1]) +
      if steps[n].Close? && steps[n].id in states[n].registry then {states[n].registry[steps[n].id].client} else {}
  }

  ghost predicate TableInv(s: State, closed: set<nat>) {
    && (forall k :: k in closed ==> WasPublished(s, k))
    && (forall k :: WasPublished(s, k) ==> (NthId(k) in s.registry <==> k !in closed))
  }

  lemma CloseKeepsTable(s: State, id: string, holder: int, closed: set<nat>)
    requires PermitInv(s, holder) && RegistryInv(s) && TableInv(s, closed) && Enabled(s, Close(id))
    ensures TableInv(Apply(s, Close(id)), closed + {s.registry[id].client})
  {
    assert SessionOf(s, id);
    OtherIdsDiffer(s, holder, s.registry[id].client);
    TableShrinks(s, Apply(s, Close(id)), s.registry[id].client, closed);
  }

  lemma TableShrinks(s: State, s': State, k: nat, closed: set<nat>)
    requires TableInv(s, closed) && WasPublished(s, k)
    requires forall j :: j in s.stages && j != k ==> NthId(j) != NthId(k)
    requires s'.stages == s.stages
    requires s'.registry.Keys == s.registry.Keys - {NthId(k)}
    ensures TableInv(s', closed + {k})
  {
  }

  lemma RegisterKeepsTable(s: State, holder: int, closed: set<nat>)
    requires PermitInv(s, holder) && RegistryInv(s) && TableInv(s, closed) && Enabled(s, Register)
    ensures TableInv(Apply(s, Register), closed)
  {
    RegisterEffect(s, holder);
    OtherIdsDiffer(s, holder, holder);
    TableGrows(s, Apply(s, Register), holder, closed);
  }

  lemma TableGrows(s: State, s': State, k: nat, closed: set<nat>)
    requires TableInv(s, closed) && k in s.stages && !WasPublished(s, k)
    requires forall j :: j in s.stages && j != k ==> NthId(j) != NthId(k)
    requires s'.stages == s.stages[k := Published]
    requires s'.registry.Keys == s.registry.Keys + {NthId(k)}
    ensures TableInv(s', closed)
  {
  }

  lemma StepKeepsTable(s: State, step: Step, holder: int, closed: set<nat>)
    requires PermitInv(s, holder) && RegistryInv(s) && TableInv(s, closed) && Enabled(s, step) && !step.Stray?
    ensures TableInv(Apply(s, step), closed + if step.Close? then {s.registry[step.id].client} else {})
  {
    if step.Close? {
      CloseKeepsTable(s, step.id, holder, closed);
    } else if step.Register? {
      RegisterKeepsTable(s, holder, closed);
    } else if OfAcceptLoop(step) {
      AcceptLoopPublishesNothing(s, step, holder);
    } else {
      StreamPublishesNothing(s, step, holder);
    }
  }

  /** A stream's session is in the table from its registration until it is closed, and it is closed at most
      once: nothing else removes it or puts it back. */
  lemma {:induction false} SessionsStayUntilClosed(slot: Slot, steps: seq<Step>, states: seq<State>)
    requires Run(slot, steps, states)
    ensures TableInv(states[|steps|], ClosedStreams(steps, states))
  {
    var n := |steps|;
    if n > 0 {
      SessionsStayUntilClosed(slot, steps[..n - 1], states[..n]);
      var holder := RunKeepsInv(slot, steps[..n - 1], states[..n]);
      StepKeepsTable(states[n - 1], steps[n - 1], holder, ClosedStreams(steps[..n - 1], states[..n]));
    }
  }

  /** Whenever a session is registered its id is new, and the id read from the wire is the one in the slot. */
  lemma RegistrationIsClean(slot: Slot, steps: seq<Step>, states: seq<State>)
    requires Run(slot, steps, states) && Enabled(states[|steps|], Register)
    ensures var s := states[|steps|];
      s.acceptor.session.id !in s.registry && s.acceptor.session.id == s.slot.id
  {
    var holder := RunKeepsInv(slot, steps, states);
    RegisterFindsIdFree(states[|steps|], holder);
  }

  /** As long as a stream is not complete, some thread or client can take a step of the hand-off. */
  lemma HandoffNeverBlocks(slot: Slot, steps: seq<Step>, states: seq<State>, k: nat)
    requires Run(slot, steps, states)
    requires k in states[|steps|].stages && !states[|steps|].stages[k].Complete?
    ensures exists step :: HandsOff(step) && Enabled(states[|steps|], step)
  {
    var h := RunKeepsInv(slot, steps, states);
    var s := states[|steps|];
    var step :=
      if s.count > 0 then Acquire(k)
      else match s.stages[h]
        case Storing(n) => if n == 0 then StoreLatency(h) else if n == 1 then StoreSize(h) else StoreId(h)
        case Offered => Connect(h)
        case Connected => Accept
        case _ =>
          match s.acceptor
          case GotSocket(_) => LoadLatency
          case GotLatency(_, _) => LoadSize
          case GotSize(_, _, _) => ReadId
          case GotId(_) => Register
          case _ => Notify;
    assert HandsOff(step) && Enabled(s, step);
  }

  /** The place of the permit's holder in its ten steps from taking the permit to giving it back. */
  ghost function Progress(s: State, holder: nat): nat
    requires holder in s.stages
  {
    match s.stages[holder]
    case Queueing => 0
    case Storing(n) => n
    case Offered => 3
    case Connected => 4
    case Accepted =>
      (match s.acceptor case GotLatency(_, _) => 6 case GotSize(_, _, _) => 7 case GotId(_) => 8 case _ => 5)
    case Published => 9
    case Complete => 10
  }

  lemma LoadsAdvance(s: State, step: Step, holder: int)
    requires PermitInv(s, holder) && s.count == 0 && Enabled(s, step)
    requires step.LoadLatency? || step.LoadSize? || step.ReadId?
    ensures Progress(Apply(s, step), holder) == Progress(s, holder) + 1 < 10
    ensures Apply(s, step).stages == s.stages && Apply(s, step).count == 0
  {
    LoadsKeepPermit(s, step, holder);
  }

  lemma AcceptLoopAdvances(s: State, step: Step, holder: int)
    requires PermitInv(s, holder) && s.count == 0 && Enabled(s, step)
    requires step.Accept? || step.Register? || step.Notify?
    ensures Progress(Apply(s, step), holder) == Progress(s, holder) + 1
    ensures Apply(s, step).stages == s.stages[holder := Apply(s, step).stages[holder]]
    ensures Apply(s, step).count == if Progress(Apply(s, step), holder) == 10 then 1 else 0
  {
  }

  lemma StreamAdvances(s: State, step: Step, holder: int)
    requires PermitInv(s, holder) && s.count == 0 && Enabled(s, step) && HandsOff(step) && !OfAcceptLoop(step)
    ensures step.k == holder
    ensures Progress(Apply(s, step), holder) == Progress(s, holder) + 1 < 10
    ensures Apply(s, step).stages == s.stages[holder := Apply(s, step).stages[holder]]
    ensures Apply(s, step).count == 0
  {
  }

  /** While a stream holds the permit, every step of the hand-off is its own and the next of its ten; the
      permit comes back with the last. */
  lemma HolderAdvances(s: State, step: Step, holder: int)
    requires PermitInv(s, holder) && s.count == 0 && Enabled(s, step) && HandsOff(step)
    ensures Progress(Apply(s, step), holder) == Progress(s, holder) + 1
    ensures Apply(s, step).stages == s.stages[holder := Apply(s, step).stages[holder]]
    ensures Apply(s, step).count == if Progress(Apply(s, step), holder) == 10 then 1 else 0
  {
    if step.Accept? || step.Register? || step.Notify? {
      AcceptLoopAdvances(s, step, holder);
    } else if OfAcceptLoop(step) {
      LoadsAdvance(s, step, holder);
    } else {
      StreamAdvances(s, step, holder);
    }
  }

  lemma Extend(slot: Slot, steps: seq<Step>, states: seq<State>, step: Step)
      returns (steps': seq<Step>, states': seq<State>)
    requires Trace(slot, steps, states) && Enabled(states[|steps|], step)
    ensures Trace(slot, steps', states') && states'[|steps'|] == Apply(states[|steps|], step)
  {
    steps', states' := steps + [step], states + [Apply(states[|steps|], step)];
  }

  /** Whenever no request is queued, one stray connection is enough: it is given the settings of the stream
      before, is registered if its identifier is not in the table, and leaves two permits. */
  lemma StrayConnectionDoublesPermit(slot: Slot, steps: seq<Step>, states: seq<State>, k: nat)
      returns (steps': seq<Step>, states': seq<State>)
    requires Run(slot, steps, states) && states[|steps|].count == 1
    ensures Trace(slot, steps', states') && states'[|steps'|].count == 2
    ensures var s := states[|steps|];
      states'[|steps'|].registry ==
        if NthId(k) in s.registry then s.registry
        else s.registry[NthId(k) := Session(k, NthId(k), s.slot.lowLatency, s.slot.bufferSize)]
  {
    var holder := RunKeepsInv(slot, steps, states);
    steps', states' := Extend(slot, steps, states, Stray(k));
    for i := 0 to 6
      invariant Trace(slot, steps', states')
      invariant StrayAt(states[|steps|], k, i, states'[|steps'|])
    {
      steps', states' := Extend(slot, steps', states', [Accept, LoadLatency, LoadSize, ReadId, Register, Notify][i]);
    }
  }

  /** The state in which `i` steps of the accept loop have been taken for a stray connection. */
  predicate StrayAt(s: State, k: nat, i: int, r: State) {
    var session := Session(k, NthId(k), s.slot.lowLatency, s.slot.bufferSize);
    && !At(s, k, Connected) && !At(s, k, Accepted) && !At(s, k, Published)
    && r == s.(
         backlog := if i == 0 then [k] else [],
         acceptor := (match i
           case 1 => GotSocket(k)
           case 2 => GotLatency(k, s.slot.lowLatency)
           case 3 => GotSize(k, s.slot.lowLatency, s.slot.bufferSize)
           case 4 => GotId(session)
           case 5 => Registered(session)
           case _ => Idle),
         registry := if i >= 5 then Emplace(s.registry, session) else s.registry,
         count := if i >= 6 then s.count + 1 else s.count)
  }
}
