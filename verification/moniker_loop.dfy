/** The server side of a moniker stream: the endpoint lists and the read/write loop that runs after the
    client's initial write. */
module MonikerLoop {
  import opened Options

  /** An instance of an endpoint; the function pointer is null if nothing is registered under its source. */
  datatype Endpoint = Endpoint(entry: Option<nat>, instance: int)

  datatype Moniker = Moniker(source: string, instance: int)

  /** Each endpoint has its moniker's instance, and the function registered under its source, if any. */
  ghost predicate Resolved(endpoints: map<string, nat>, ms: seq<Moniker>, es: seq<Endpoint>) {
    && |es| == |ms|
    && (forall i :: 0 <= i < |ms| ==> es[i].instance == ms[i].instance)
    && (forall i :: 0 <= i < |ms| && ms[i].source in endpoints ==> es[i].entry == Some(endpoints[ms[i].source]))
    && (forall i :: 0 <= i < |ms| && ms[i].source !in endpoints ==> es[i].entry == None)
  }

  /** One of the two loops of `InitiateMonikerList`. */
  method InitiateList(endpoints: map<string, nat>, monikers: seq<Moniker>) returns (list: seq<Endpoint>)
    ensures |list| == |monikers|
    ensures forall i :: 0 <= i < |monikers| ==> list[i].instance == monikers[i].instance
    ensures forall i :: 0 <= i < |monikers| && monikers[i].source in endpoints ==>
      list[i].entry == Some(endpoints[monikers[i].source])
    ensures forall i :: 0 <= i < |monikers| && monikers[i].source !in endpoints ==> list[i].entry == None
  {
    list := [];
    for n := 0 to |monikers|
      invariant Resolved(endpoints, monikers[..n], list)
    {
      var entry := None;
      if monikers[n].source in endpoints {
        entry := Some(endpoints[monikers[n].source]);
      }
      list := list + [Endpoint(entry, monikers[n].instance)];
    }
    assert monikers[..|monikers|] == monikers;
  }

  /** `InitiateMonikerList`: the monikers' endpoints in list order. */
  method InitiateMonikerList(endpoints: map<string, nat>, readMonikers: seq<Moniker>, writeMonikers: seq<Moniker>)
      returns (readers: seq<Endpoint>, writers: seq<Endpoint>)
    ensures |readers| == |readMonikers| && |writers| == |writeMonikers|
    ensures forall i :: 0 <= i < |readers| ==> readers[i].instance == readMonikers[i].instance
    ensures forall i :: 0 <= i < |writers| ==> writers[i].instance == writeMonikers[i].instance
    ensures forall i :: 0 <= i < |readers| && readMonikers[i].source in endpoints ==>
      readers[i].entry == Some(endpoints[readMonikers[i].source])
    ensures forall i :: 0 <= i < |writers| && writeMonikers[i].source in endpoints ==>
      writers[i].entry == Some(endpoints[writeMonikers[i].source])
    ensures forall i :: 0 <= i < |readers| && readMonikers[i].source !in endpoints ==> readers[i].entry == None
    ensures forall i :: 0 <= i < |writers| && writeMonikers[i].source !in endpoints ==> writers[i].entry == None
  {
    readers := InitiateList(endpoints, readMonikers);
    writers := InitiateList(endpoints, writeMonikers);
  }

  datatype Request<V> = Request(cancel: bool, values: seq<V>)

  /** What the loop does to the outside, in the order it does it. The index is the place in the list. */
  datatype Action<V> =
    | WriterRan(index: nat, endpoint: Endpoint, value: V)
    | ReaderRan(index: nat, endpoint: Endpoint, result: V)
    | Replied(values: seq<V>)
    | Closed

  /** The endpoints' part: what reader `i` yields in round `k`, whose request has these values, and how many
      bytes a value serialises to. */
  datatype World<!V> = World(sample: (nat, seq<V>, nat) -> V, valueSize: V -> nat)

  /** The bytes of a protobuf varint. */
  function VarintSize(n: nat): (size: nat)
    ensures size >= 1
  {
    if n < 128 then 1 else 1 + VarintSize(n / 128)
  }

  /** A length-delimited field, whose number is below 16: tag, length, content. */
  function FieldSize(content: nat): nat {
    1 + VarintSize(content) + content
  }

  function ValuesSize<V>(world: World<V>, values: seq<V>): nat {
    if values == [] then 0 else FieldSize(world.valueSize(values[0])) + ValuesSize(world, values[1..])
  }

  /** `ByteSizeLong` of a reply: `cancel` is not set, and `values` is there once a value has been added. */
  function ReplySize<V>(world: World<V>, values: seq<V>): nat {
    if values == [] then 0 else FieldSize(ValuesSize(world, values))
  }

  /** A reply with values is never empty, so the loop does not mistake its size for a failure. */
  lemma ReplyHasBytes<V>(world: World<V>, values: seq<V>)
    ensures if values == [] then ReplySize(world, values) == 0
            else ReplySize(world, values) >= 2 + 2 * |values| >= 4
  {
    ValuesHaveBytes(world, values);
  }

  lemma {:induction false} ValuesHaveBytes<V>(world: World<V>, values: seq<V>)
    ensures ValuesSize(world, values) >= 2 * |values|
  {
    if values != [] {
      ValuesHaveBytes(world, values[1..]);
    }
  }

  function WriterActions<V>(writers: seq<Endpoint>, values: seq<V>): (r: seq<Action<V>>)
    requires |values| >= |writers|
  {
    seq(|writers|, i requires 0 <= i < |writers| => WriterRan(i, writers[i], values[i]))
  }

  function Samples<V>(readers: nat, world: World<V>, round: nat, values: seq<V>): (r: seq<V>)
    ensures |r| == readers
  {
    seq(readers, i requires 0 <= i < readers => world.sample(round, values, i))
  }

  function ReaderActions<V>(readers: seq<Endpoint>, world: World<V>, round: nat, values: seq<V>): seq<Action<V>> {
    seq(|readers|, i requires 0 <= i < |readers| => ReaderRan(i, readers[i], world.sample(round, values, i)))
  }

  /** Everything done for one request: all writes, then all reads, then the reply; no reply without readers. */
  function Round<V>(readers: seq<Endpoint>, writers: seq<Endpoint>, world: World<V>, request: Request<V>,
                    round: nat): seq<Action<V>>
    requires |request.values| >= |writers|
  {
    WriterActions(writers, request.values) +
    if readers == [] then []
    else
      var reply := Samples(|readers|, world, round, request.values);
      ReaderActions(readers, world, round, request.values) + [Replied(reply)]
  }

  /** Every request that is served has a value for every writer. */
  predicate Servable<V>(requests: seq<Request<V>>, writers: nat) {
    requests == [] || requests[0].cancel ||
    (|requests[0].values| >= writers && Servable(requests[1..], writers))
  }

  /** Everything the loop does with these requests, down to closing the session. */
  function LoopActions<V>(readers: seq<Endpoint>, writers: seq<Endpoint>, world: World<V>, requests: seq<Request<V>>,
                          round: nat): seq<Action<V>>
    requires Servable(requests, |writers|)
  {
    if requests == [] || requests[0].cancel then [Closed]
    else
      Round(readers, writers, world, requests[0], round) +
      LoopActions(readers, writers, world, requests[1..], round + 1)
  }

  /** What successive calls of ReadSidebandMessage yield: these messages, where None is one that cannot be
      parsed, and after them whatever the empty string parses to, since a session from which nothing comes any
      more goes unnoticed: a request without values that is no cancellation. */
  function Yields<V>(inbox: seq<Option<Request<V>>>, k: nat): Option<Request<V>> {
    if k < |inbox| then inbox[k] else Some(Request(false, []))
  }

  predicate EndsLoop<V>(message: Option<Request<V>>) {
    message.None? || message.value.cancel
  }

  /** How many messages come before the first that ends the loop. */
  function FirstEnd<V>(inbox: seq<Option<Request<V>>>): (n: nat)
    ensures n <= |inbox|
    ensures n < |inbox| ==> inbox[n].None? || inbox[n].value.cancel
    ensures forall k :: 0 <= k < n ==> inbox[k].Some? && !inbox[k].value.cancel
  {
    if inbox == [] || EndsLoop(inbox[0]) then 0 else 1 + FirstEnd(inbox[1..])
  }

  /** The requests before it. */
  function ToServe<V>(inbox: seq<Option<Request<V>>>): (r: seq<Request<V>>)
    ensures |r| == FirstEnd(inbox) && forall k :: 0 <= k < |r| ==> r[k] == inbox[k].value
  {
    seq(FirstEnd(inbox), k requires 0 <= k < FirstEnd(inbox) => inbox[k].value)
  }

  /** Where the loop is after so many rounds: about to read again, closed, or at a value that is not there. */
  datatype Fate = GoesOn | Closes | MissesValue

  function FateAfter<V>(inbox: seq<Option<Request<V>>>, writers: nat, k: nat): Fate {
    if k == 0 then GoesOn
    else
      var before := FateAfter(inbox, writers, k - 1);
      if before != GoesOn then before
      else if EndsLoop(Yields(inbox, k - 1)) then Closes
      else if |Yields(inbox, k - 1).value.values| < writers then MissesValue
      else GoesOn
  }

  lemma {:induction false} GoesOnExactly<V>(inbox: seq<Option<Request<V>>>, writers: nat, k: nat)
    ensures FateAfter(inbox, writers, k) == GoesOn <==>
      forall j :: 0 <= j < k ==> !EndsLoop(Yields(inbox, j)) && |Yields(inbox, j).value.values| >= writers
  {
    if k > 0 {
      GoesOnExactly(inbox, writers, k - 1);
    }
  }

  /** All requests that come before the end have a value for every writer. */
  ghost predicate HasValues<V>(inbox: seq<Option<Request<V>>>, writers: nat) {
    forall k :: 0 <= k < FirstEnd(inbox) ==> |inbox[k].value.values| >= writers
  }

  ghost predicate EverCloses<V>(inbox: seq<Option<Request<V>>>, writers: nat) {
    exists k: nat :: FateAfter(inbox, writers, k) == Closes
  }

  ghost predicate NeverStops<V>(inbox: seq<Option<Request<V>>>, writers: nat) {
    forall k: nat :: FateAfter(inbox, writers, k) == GoesOn
  }

  /** The loop closes the session exactly if a cancellation or an unreadable message comes, and enough values
      before it. Without one, it goes on for ever if there are no writers, and runs into a missing value if there
      are: right after the last message, if not before. */
  lemma LoopClosesExactly<V>(inbox: seq<Option<Request<V>>>, writers: nat)
    ensures EverCloses(inbox, writers) <==>
      FirstEnd(inbox) < |inbox| && forall k :: 0 <= k < FirstEnd(inbox) ==> |inbox[k].value.values| >= writers
    ensures NeverStops(inbox, writers) <==> FirstEnd(inbox) == |inbox| && writers == 0
    ensures FirstEnd(inbox) == |inbox| && HasValues(inbox, writers) && writers > 0 ==>
      FateAfter(inbox, writers, |inbox|) == GoesOn && FateAfter(inbox, writers, |inbox| + 1) == MissesValue
  {
    var n := FirstEnd(inbox);
    MissesEarly(inbox, writers, n);
    if !HasValues(inbox, writers) {
      StopsAt(inbox, writers, n, MissesValue);
    } else if n < |inbox| {
      StopsAt(inbox, writers, n + 1, Closes);
    } else if writers > 0 {
      StopsAt(inbox, writers, n + 1, MissesValue);
    } else {
      forall k: nat
        ensures FateAfter(inbox, writers, k) == GoesOn
      {
        GoesOnExactly(inbox, writers, k);
      }
    }
  }

  lemma StopsAt<V>(inbox: seq<Option<Request<V>>>, writers: nat, k: nat, fate: Fate)
    requires FateAfter(inbox, writers, k) == fate != GoesOn
    ensures !NeverStops(inbox, writers) && (EverCloses(inbox, writers) <==> fate == Closes)
  {
    FateIsFinal(inbox, writers, k);
  }

  lemma {:induction false} MissesEarly<V>(inbox: seq<Option<Request<V>>>, writers: nat, n: nat)
    requires n <= FirstEnd(inbox)
    ensures FateAfter(inbox, writers, n) ==
      if forall k :: 0 <= k < n ==> |inbox[k].value.values| >= writers then GoesOn else MissesValue
  {
    if n > 0 {
      MissesEarly(inbox, writers, n - 1);
    }
  }

  lemma {:induction false} FateStays<V>(inbox: seq<Option<Request<V>>>, writers: nat, k: nat, more: nat)
    requires FateAfter(inbox, writers, k) != GoesOn
    ensures FateAfter(inbox, writers, k + more) == FateAfter(inbox, writers, k)
  {
    if more > 0 {
      FateStays(inbox, writers, k, more - 1);
    }
  }

  lemma FateIsFinal<V>(inbox: seq<Option<Request<V>>>, writers: nat, k: nat)
    ensures FateAfter(inbox, writers, k) != GoesOn ==>
      forall j: nat :: FateAfter(inbox, writers, j) in {GoesOn, FateAfter(inbox, writers, k)}
  {
    forall j: nat | FateAfter(inbox, writers, k) != GoesOn
      ensures FateAfter(inbox, writers, j) in {GoesOn, FateAfter(inbox, writers, k)}
    {
      if j >= k {
        FateStays(inbox, writers, k, j - k);
      } else if FateAfter(inbox, writers, j) != GoesOn {
        FateStays(inbox, writers, j, k - j);
      }
    }
  }

  /** The session the loop runs over, and what it does. */
  class Session<V> {
    var inbox: seq<Option<Request<V>>>
    var log: seq<Action<V>>

    constructor (inbox: seq<Option<Request<V>>>)
      ensures this.inbox == inbox && log == []
    {
      this.inbox, log := inbox, [];
    }

    /** A message that cannot be parsed leaves something in the request that nobody looks at. */
    method ReadSidebandMessage(previous: Request<V>) returns (success: bool, request: Request<V>)
      modifies this`inbox
      ensures success == old(Yields(inbox, 0)).Some?
      ensures success ==> request == old(Yields(inbox, 0)).value
      ensures inbox == if old(inbox) == [] then [] else old(inbox)[1..]
    {
      success, request := true, Request(false, []);
      if inbox != [] {
        success, request := inbox[0].Some?, if inbox[0].Some? then inbox[0].value else previous;
        inbox := inbox[1..];
      }
    }

    /** The loop over the writers: each gets the value at its place in the list. */
    method RunWriters(writers: seq<Endpoint>, values: seq<V>)
      requires forall e :: e in writers ==> e.entry.Some?
      requires |values| >= |writers|
      modifies this`log
      ensures log == old(log) + WriterActions(writers, values)
    {
      var x := 0;
      assert WriterActions(writers, values)[..0] == [];
      while x < |writers|
        invariant 0 <= x <= |writers|
        invariant log == old(log) + WriterActions(writers, values)[..x]
      {
        log := log + [WriterRan(x, writers[x], values[x])];
        x := x + 1;
      }
      assert WriterActions(writers, values)[..x] == WriterActions(writers, values);
    }

    /** The loop over the readers: one value each, in list order. */
    method RunReaders(readers: seq<Endpoint>, world: World<V>, round: nat, request: Request<V>) returns (values: seq<V>)
      requires forall e :: e in readers ==> e.entry.Some?
      modifies this`log
      ensures values == Samples(|readers|, world, round, request.values)
      ensures log == old(log) + ReaderActions(readers, world, round, request.values)
    {
      ghost var actions := ReaderActions(readers, world, round, request.values);
      values := [];
      var x := 0;
      assert actions[..0] == [];
      while x < |readers|
        invariant 0 <= x <= |readers|
        invariant values == Samples(|readers|, world, round, request.values)[..x]
        invariant log == old(log) + actions[..x]
      {
        var value := world.sample(round, request.values, x);
        log := log + [ReaderRan(x, readers[x], value)];
        values := values + [value];
        x := x + 1;
      }
      assert actions[..x] == actions;
    }

    /** The body of the loop. The writing call's result is a byte count, and the loop would end at zero. */
    method Serve(readers: seq<Endpoint>, writers: seq<Endpoint>, world: World<V>, request: Request<V>, round: nat)
        returns (goOn: bool)
      requires forall e :: e in readers || e in writers ==> e.entry.Some?
      requires |request.values| >= |writers|
      modifies this`log
      ensures log == old(log) + Round(readers, writers, world, request, round)
      ensures goOn
    {
      RunWriters(writers, request.values);
      goOn := true;
      if |readers| > 0 {
        var values := RunReaders(readers, world, round, request);
        log := log + [Replied(values)];
        ReplyHasBytes(world, values);
        goOn := ReplySize(world, values) != 0;
      }
    }

    /** The initial-write branch of `RunSidebandReadWriteLoop`. A null function pointer may not be called, a
        request that is served must have a value for every writer, and some message must end the loop. */
    method RunSidebandReadWriteLoop(readers: seq<Endpoint>, writers: seq<Endpoint>, world: World<V>)
      requires forall e :: e in readers || e in writers ==> e.entry.Some?
      requires FirstEnd(inbox) < |inbox|
      requires forall k :: 0 <= k < FirstEnd(inbox) ==> |inbox[k].value.values| >= |writers|
      modifies this
      ensures Servable(ToServe(old(inbox)), |writers|)
      ensures log == old(log) + LoopActions(readers, writers, world, ToServe(old(inbox)), 0)
      ensures inbox == old(inbox)[FirstEnd(old(inbox)) + 1..]
    {
      EnoughToServe(inbox, |writers|);
      ghost var everything := log + LoopActions(readers, writers, world, ToServe(inbox), 0);
      ghost var rest := inbox;
      var round: nat := 0;
      var success, request := ReadSidebandMessage(Request(false, []));
      var goOn := true;
      while goOn && success && !request.cancel
        invariant goOn && FirstEnd(rest) < |rest| && HasValues(rest, |writers|)
        invariant success == rest[0].Some? && (success ==> request == rest[0].value) && inbox == rest[1..]
        invariant rest[FirstEnd(rest)..] == old(inbox)[FirstEnd(old(inbox))..]
        invariant Servable(ToServe(rest), |writers|)
        invariant everything == log + LoopActions(readers, writers, world, ToServe(rest), round)
        decreases |rest|
      {
        ServeFirst(rest, |writers|);
        LogGrows(log, readers, writers, world, rest, round);
        goOn := Serve(readers, writers, world, request, round);
        if goOn {
          round, rest := round + 1, rest[1..];
          success, request := ReadSidebandMessage(request);
        }
      }
      assert inbox == rest[FirstEnd(rest)..][1..];
      log := log + [Closed];
    }
  }

  lemma LogGrows<V>(log: seq<Action<V>>, readers: seq<Endpoint>, writers: seq<Endpoint>, world: World<V>,
                    inbox: seq<Option<Request<V>>>, round: nat)
    requires inbox != [] && !EndsLoop(inbox[0]) && HasValues(inbox, |writers|)
    ensures |inbox[0].value.values| >= |writers|
    ensures Servable(ToServe(inbox), |writers|) && Servable(ToServe(inbox[1..]), |writers|)
    ensures log + LoopActions(readers, writers, world, ToServe(inbox), round)
         == log + Round(readers, writers, world, inbox[0].value, round)
            + LoopActions(readers, writers, world, ToServe(inbox[1..]), round + 1)
  {
    ServeFirst(inbox, |writers|);
    var actions := Round(readers, writers, world, inbox[0].value, round);
    var after := LoopActions(readers, writers, world, ToServe(inbox[1..]), round + 1);
    assert ToServe(inbox)[1..] == ToServe(inbox[1..]);
    assert log + (actions + after) == log + actions + after;
  }

  lemma EnoughToServe<V>(inbox: seq<Option<Request<V>>>, writers: nat)
    requires HasValues(inbox, writers)
    ensures Servable(ToServe(inbox), writers)
  {
    ServableExactly(ToServe(inbox), writers);
  }

  lemma ServeFirst<V>(inbox: seq<Option<Request<V>>>, writers: nat)
    requires inbox != [] && !EndsLoop(inbox[0]) && HasValues(inbox, writers)
    ensures |inbox[0].value.values| >= writers
    ensures FirstEnd(inbox) == 1 + FirstEnd(inbox[1..]) && HasValues(inbox[1..], writers)
    ensures inbox[FirstEnd(inbox)..] == inbox[1..][FirstEnd(inbox[1..])..]
    ensures ToServe(inbox) == [inbox[0].value] + ToServe(inbox[1..])
    ensures Servable(ToServe(inbox[1..]), writers)
  {
    var rest := inbox[1..];
    forall k | 0 <= k < FirstEnd(rest)
      ensures |rest[k].value.values| >= writers
    {
      assert rest[k] == inbox[k + 1];
    }
    EnoughToServe(rest, writers);
  }

  /** How many requests come before the first cancellation. */
  function FirstCancel<V>(requests: seq<Request<V>>): (n: nat)
    ensures n <= |requests|
    ensures n < |requests| ==> requests[n].cancel
    ensures forall k :: 0 <= k < n ==> !requests[k].cancel
  {
    if requests == [] || requests[0].cancel then 0 else 1 + FirstCancel(requests[1..])
  }

  /** One round per request, from this round on. */
  function Rounds<V>(readers: seq<Endpoint>, writers: seq<Endpoint>, world: World<V>, requests: seq<Request<V>>,
                     round: nat): seq<Action<V>>
    requires forall k :: 0 <= k < |requests| ==> |requests[k].values| >= |writers|
  {
    if requests == [] then []
    else Round(readers, writers, world, requests[0], round) + Rounds(readers, writers, world, requests[1..], round + 1)
  }

  lemma {:induction false} ServableExactly<V>(requests: seq<Request<V>>, writers: nat)
    ensures Servable(requests, writers) <==>
      forall k :: 0 <= k < FirstCancel(requests) ==> |requests[k].values| >= writers
  {
    if requests != [] && !requests[0].cancel {
      ServableExactly(requests[1..], writers);
      forall k | 0 <= k < FirstCancel(requests[1..])
        ensures requests[1..][k] == requests[k + 1]
      {
      }
    }
  }

  /** The log is one round for each request before the first cancellation, in order, and then the close: each
      reply comes after all writes of its own request and before those of the next, no endpoint runs for a
      cancelled or later request, and closing is the last thing done. */
  lemma {:induction false} RoundsInOrder<V>(readers: seq<Endpoint>, writers: seq<Endpoint>, world: World<V>,
                                            requests: seq<Request<V>>, round: nat)
    requires Servable(requests, |writers|)
    ensures forall k :: 0 <= k < FirstCancel(requests) ==> |requests[k].values| >= |writers|
    ensures LoopActions(readers, writers, world, requests, round)
         == Rounds(readers, writers, world, requests[..FirstCancel(requests)], round) + [Closed]
  {
    ServableExactly(requests, |writers|);
    if requests != [] && !requests[0].cancel {
      RoundsInOrder(readers, writers, world, requests[1..], round + 1);
      var served, rest := requests[..FirstCancel(requests)], requests[1..][..FirstCancel(requests[1..])];
      assert served[1..] == rest;
      var first := Round(readers, writers, world, requests[0], round);
      var later := Rounds(readers, writers, world, rest, round + 1);
      assert first + (later + [Closed]) == first + later + [Closed];
    }
  }

  /** The values given to the writer at one place in the list, in order. */
  function GivenTo<V>(actions: seq<Action<V>>, index: nat): seq<V> {
    if actions == [] then []
    else
      var head, rest := actions[0], GivenTo(actions[1..], index);
      if head.WriterRan? && head.index == index then [head.value] + rest else rest
  }

  /** The replies, in order. */
  function Replies<V>(actions: seq<Action<V>>): seq<seq<V>> {
    if actions == [] then []
    else
      var rest := Replies(actions[1..]);
      if actions[0].Replied? then [actions[0].values] + rest else rest
  }

  lemma {:induction false} GivenConcatenate<V>(a: seq<Action<V>>, b: seq<Action<V>>, index: nat)
    ensures GivenTo(a + b, index) == GivenTo(a, index) + GivenTo(b, index)
  {
    if a == [] {
      assert a + b == b;
    } else {
      assert (a + b)[0] == a[0] && (a + b)[1..] == a[1..] + b;
      GivenConcatenate(a[1..], b, index);
    }
  }

  lemma {:induction false} RepliesConcatenate<V>(a: seq<Action<V>>, b: seq<Action<V>>)
    ensures Replies(a + b) == Replies(a) + Replies(b)
  {
    if a == [] {
      assert a + b == b;
    } else {
      assert (a + b)[0] == a[0] && (a + b)[1..] == a[1..] + b;
      RepliesConcatenate(a[1..], b);
    }
  }

  lemma ProjectionsConcatenate<V>(a: seq<Action<V>>, b: seq<Action<V>>, index: nat)
    ensures GivenTo(a + b, index) == GivenTo(a, index) + GivenTo(b, index)
    ensures Replies(a + b) == Replies(a) + Replies(b)
  {
    GivenConcatenate(a, b, index);
    RepliesConcatenate(a, b);
  }

  lemma {:induction false} WritersGetTheirValue<V>(writers: seq<Endpoint>, values: seq<V>, index: nat, n: nat)
    requires n <= |writers| <= |values|
    ensures GivenTo(WriterActions(writers, values)[..n], index) == if index < n then [values[index]] else []
    ensures Replies(WriterActions(writers, values)[..n]) == []
  {
    if n > 0 {
      var actions := WriterActions(writers, values);
      WritersGetTheirValue(writers, values, index, n - 1);
      assert actions[..n] == actions[..n - 1] + [actions[n - 1]];
      ProjectionsConcatenate(actions[..n - 1], [actions[n - 1]], index);
    }
  }

  lemma {:induction false} ReadersGiveNothing<V>(actions: seq<Action<V>>, index: nat)
    requires forall a :: a in actions ==> a.ReaderRan?
    ensures GivenTo(actions, index) == [] && Replies(actions) == []
  {
    if actions != [] {
      assert actions[0] in actions && forall a :: a in actions[1..] ==> a in actions;
      ReadersGiveNothing(actions[1..], index);
    }
  }

  lemma RoundProjections<V>(readers: seq<Endpoint>, writers: seq<Endpoint>, world: World<V>, request: Request<V>,
                            round: nat, index: nat)
    requires |request.values| >= |writers|
    ensures var actions := Round(readers, writers, world, request, round);
      && GivenTo(actions, index) == (if index < |writers| then [request.values[index]] else [])
      && Replies(actions) == if readers == [] then [] else [Samples(|readers|, world, round, request.values)]
  {
    var w, r := WriterActions(writers, request.values), ReaderActions<V>(readers, world, round, request.values);
    var reply: seq<Action<V>> := [Replied(Samples(|readers|, world, round, request.values))];
    assert w[..|writers|] == w;
    WritersGetTheirValue(writers, request.values, index, |writers|);
    ReadersGiveNothing(r, index);
    ProjectionsConcatenate(r, reply, index);
    ProjectionsConcatenate(w, if readers == [] then [] else r + reply, index);
  }

  lemma ProjectionsOfRest<V>(readers: seq<Endpoint>, writers: seq<Endpoint>, world: World<V>,
                             requests: seq<Request<V>>, round: nat, index: nat)
    requires Servable(requests, |writers|) && requests != [] && !requests[0].cancel
    ensures var rest := LoopActions(readers, writers, world, requests[1..], round + 1);
      var actions := LoopActions(readers, writers, world, requests, round);
      && GivenTo(actions, index) ==
           (if index < |writers| then [requests[0].values[index]] else []) + GivenTo(rest, index)
      && Replies(actions) ==
           (if readers == [] then [] else [Samples(|readers|, world, round, requests[0].values)]) + Replies(rest)
  {
    var rest := LoopActions(readers, writers, world, requests[1..], round + 1);
    RoundProjections(readers, writers, world, requests[0], round, index);
    ProjectionsConcatenate(Round(readers, writers, world, requests[0], round), rest, index);
  }

  /** Over every request stream, the writer at place `i` is given exactly column `i` of the requests before the
      first cancellation, in order. */
  lemma {:induction false} WriterGetsItsColumn<V>(readers: seq<Endpoint>, writers: seq<Endpoint>, world: World<V>,
                                                  requests: seq<Request<V>>, round: nat, index: nat)
    requires Servable(requests, |writers|) && index < |writers|
    ensures var given := GivenTo(LoopActions(readers, writers, world, requests, round), index);
      && |given| == FirstCancel(requests)
      && forall k :: 0 <= k < |given| ==> index < |requests[k].values| && given[k] == requests[k].values[index]
  {
    if requests != [] && !requests[0].cancel {
      ProjectionsOfRest(readers, writers, world, requests, round, index);
      WriterGetsItsColumn(readers, writers, world, requests[1..], round + 1, index);
    }
  }

  /** With readers there is one reply for each request before the first cancellation, holding one value per
      reader in list order, each sampled for that request. */
  lemma {:induction false} RepliesHoldAllReaders<V>(readers: seq<Endpoint>, writers: seq<Endpoint>, world: World<V>,
                                                    requests: seq<Request<V>>, round: nat)
    requires Servable(requests, |writers|)
    ensures var replies := Replies(LoopActions(readers, writers, world, requests, round));
      && |replies| == (if readers == [] then 0 else FirstCancel(requests))
      && forall k :: 0 <= k < |replies| ==>
           && |replies[k]| == |readers|
           && forall i :: 0 <= i < |readers| ==> replies[k][i] == world.sample(round + k, requests[k].values, i)
  {
    if requests != [] && !requests[0].cancel {
      ProjectionsOfRest(readers, writers, world, requests, round, 0);
      RepliesHoldAllReaders(readers, writers, world, requests[1..], round + 1);
    }
  }

  /** The actions of a round: every writer, every reader, and with readers the reply. */
  function RoundLength(readers: nat, writers: nat): nat {
    writers + if readers == 0 then 0 else readers + 1
  }

  lemma WriterOfRound<V>(readers: seq<Endpoint>, writers: seq<Endpoint>, world: World<V>, request: Request<V>,
                         round: nat, i: nat)
    requires |request.values| >= |writers| && i < |writers|
    ensures var actions := Round(readers, writers, world, request, round);
      i < |actions| && actions[i] == WriterRan(i, writers[i], request.values[i])
  {
  }

  lemma ReaderOfRound<V>(readers: seq<Endpoint>, writers: seq<Endpoint>, world: World<V>, request: Request<V>,
                         round: nat, i: nat)
    requires |request.values| >= |writers| && i < |readers|
    ensures var actions := Round(readers, writers, world, request, round);
      && |writers| + i < |actions|
      && actions[|writers| + i] == ReaderRan(i, readers[i], world.sample(round, request.values, i))
  {
    var w, r := WriterActions(writers, request.values), ReaderActions(readers, world, round, request.values);
    var reply: seq<Action<V>> := [Replied(Samples(|readers|, world, round, request.values))];
    InFront(r, reply, i);
    Behind(w, r + reply, i);
  }

  lemma ReplyOfRound<V>(readers: seq<Endpoint>, writers: seq<Endpoint>, world: World<V>, request: Request<V>,
                        round: nat)
    requires |request.values| >= |writers| && readers != []
    ensures var actions := Round(readers, writers, world, request, round);
      && |writers| + |readers| < |actions|
      && actions[|writers| + |readers|] == Replied(Samples(|readers|, world, round, request.values))
  {
    var w, r := WriterActions(writers, request.values), ReaderActions(readers, world, round, request.values);
    var reply: seq<Action<V>> := [Replied(Samples(|readers|, world, round, request.values))];
    Behind(r, reply, 0);
    Behind(w, r + reply, |readers|);
  }

  /** Where round `k` starts in the log. */
  function StartOf(k: nat, length: nat): nat {
    if k == 0 then 0 else StartOf(k - 1, length) + length
  }

  lemma {:induction false} StartIs(k: nat, length: nat)
    ensures StartOf(k, length) == k * length
  {
    if k > 0 {
      StartIs(k - 1, length);
      assert k * length == (k - 1) * length + length;
    }
  }

  lemma RoundLengthIs<V>(readers: seq<Endpoint>, writers: seq<Endpoint>, world: World<V>, request: Request<V>,
                         round: nat)
    requires |request.values| >= |writers|
    ensures |Round(readers, writers, world, request, round)| == RoundLength(|readers|, |writers|)
  {
  }

  /** The log ends with the close, behind the rounds of all requests before the first cancellation. */
  lemma {:induction false} LogLength<V>(readers: seq<Endpoint>, writers: seq<Endpoint>, world: World<V>,
                                        requests: seq<Request<V>>, round: nat)
    requires Servable(requests, |writers|)
    ensures var log := LoopActions(readers, writers, world, requests, round);
      |log| == StartOf(FirstCancel(requests), RoundLength(|readers|, |writers|)) + 1 && log[|log| - 1] == Closed
  {
    if requests != [] && !requests[0].cancel {
      RoundLengthIs(readers, writers, world, requests[0], round);
      LogLength(readers, writers, world, requests[1..], round + 1);
    }
  }

  lemma Behind<T>(a: seq<T>, b: seq<T>, i: nat)
    requires i < |b|
    ensures (a + b)[|a| + i] == b[i]
  {
  }

  lemma InFront<T>(a: seq<T>, b: seq<T>, i: nat)
    requires i < |a|
    ensures (a + b)[i] == a[i]
  {
  }

  /** Action `j` of round `k` is at its place in the log. */
  lemma {:induction false} ActionAt<V>(readers: seq<Endpoint>, writers: seq<Endpoint>, world: World<V>,
                                       requests: seq<Request<V>>, round: nat, k: nat, j: nat)
    requires Servable(requests, |writers|)
    requires k < FirstCancel(requests) && j < RoundLength(|readers|, |writers|)
    ensures |requests[k].values| >= |writers|
    ensures |Round(readers, writers, world, requests[k], round + k)| == RoundLength(|readers|, |writers|)
    ensures var log, place :=
        LoopActions(readers, writers, world, requests, round), StartOf(k, RoundLength(|readers|, |writers|)) + j;
      place < |log| && log[place] == Round(readers, writers, world, requests[k], round + k)[j]
  {
    RoundLengthIs(readers, writers, world, requests[0], round);
    var first := Round(readers, writers, world, requests[0], round);
    var rest := LoopActions(readers, writers, world, requests[1..], round + 1);
    if k > 0 {
      ActionAt(readers, writers, world, requests[1..], round + 1, k - 1, j);
      assert requests[1..][k - 1] == requests[k];
      Behind(first, rest, StartOf(k - 1, |first|) + j);
    } else {
      InFront(first, rest, j);
    }
  }

  /** In round `k` the first actions are those of the writers, in list order, each with its own endpoint and the
      value at its place. */
  lemma LogHasWriters<V>(readers: seq<Endpoint>, writers: seq<Endpoint>, world: World<V>, requests: seq<Request<V>>,
                         round: nat, k: nat, i: nat)
    requires Servable(requests, |writers|) && k < FirstCancel(requests) && i < |writers|
    ensures |requests[k].values| >= |writers|
    ensures var log, place :=
        LoopActions(readers, writers, world, requests, round), StartOf(k, RoundLength(|readers|, |writers|)) + i;
      place < |log| && log[place] == WriterRan(i, writers[i], requests[k].values[i])
  {
    ActionAt(readers, writers, world, requests, round, k, i);
    WriterOfRound(readers, writers, world, requests[k], round + k, i);
  }

  /** Then come the readers, in list order, each with its own endpoint and what it yields for the request. */
  lemma LogHasReaders<V>(readers: seq<Endpoint>, writers: seq<Endpoint>, world: World<V>, requests: seq<Request<V>>,
                         round: nat, k: nat, i: nat)
    requires Servable(requests, |writers|) && k < FirstCancel(requests) && i < |readers|
    ensures var log := LoopActions(readers, writers, world, requests, round);
      var place := StartOf(k, RoundLength(|readers|, |writers|)) + (|writers| + i);
      && place < |log|
      && log[place] == ReaderRan(i, readers[i], world.sample(round + k, requests[k].values, i))
  {
    ActionAt(readers, writers, world, requests, round, k, |writers| + i);
    ReaderOfRound(readers, writers, world, requests[k], round + k, i);
  }

  /** Then comes the reply: the results of the readers that ran directly before it, in order. */
  lemma LogHasReplies<V>(readers: seq<Endpoint>, writers: seq<Endpoint>, world: World<V>, requests: seq<Request<V>>,
                         round: nat, k: nat, i: nat)
    requires Servable(requests, |writers|) && k < FirstCancel(requests) && i < |readers|
    ensures var log := LoopActions(readers, writers, world, requests, round);
      var start := StartOf(k, RoundLength(|readers|, |writers|));
      var reader, reply := start + (|writers| + i), start + (|writers| + |readers|);
      && reply < |log| && log[reply].Replied? && |log[reply].values| == |readers|
      && log[reader].ReaderRan? && log[reader].index == i && log[reader].endpoint == readers[i]
      && log[reply].values[i] == log[reader].result == world.sample(round + k, requests[k].values, i)
  {
    LogHasReaders(readers, writers, world, requests, round, k, i);
    ActionAt(readers, writers, world, requests, round, k, |writers| + |readers|);
    ReplyOfRound(readers, writers, world, requests[k], round + k);
    var results := Samples(|readers|, world, round + k, requests[k].values);
    assert results[i] == world.sample(round + k, requests[k].values, i);
  }
}
