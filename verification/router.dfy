/** The packet router: one task delivers; other tasks take requests, register queries, read
    responses and drop response streams between any two of its steps. */
module Router {
  import opened Bytes

  const MAX_DEQUE_SIZE := 64

  /** A message as the router sees it: a response or a request, its id, and everything else. */
  datatype Message = Message(response: bool, id: u16, content: Bytes)

  /** A response stream is held, being dropped, or gone. While it is being dropped its channel is
      still there, but its id is no longer registered. */
  datatype Phase = Held | Dropping | Gone

  /** `taken` are the responses its owner has read. */
  datatype Responses = Responses(id: u16, taken: seq<Message>, queue: seq<Message>, phase: Phase)

  /** The delivering task, between its attempts to enqueue the request it holds. */
  datatype Deliverer = Idle | Full(held: nat) | Resend(held: nat)

  /** Requests are numbered in the order of delivery. `queries` maps an id to the stream whose
      sender is registered under it. */
  datatype State = State(
    requests: seq<nat>, delivered: nat, deliverer: Deliverer, consumed: seq<nat>, dropped: seq<nat>,
    queries: map<u16, nat>, streams: seq<Responses>)

  const START := State([], 0, Idle, [], [], map[], [])

  datatype Action =
    | Deliver(message: Message)
    | Evict
    | Retry
    | TakeRequest
    | Register(id: u16)
    | TakeResponse(stream: nat)
    | Drop(stream: nat)
    | Close(stream: nat)

  predicate Live(s: State, k: nat) {
    k < |s.streams| && s.streams[k].phase == Held
  }

  function Step(s: State, a: Action): State {
    match a
    case Deliver(m) =>
      if s.deliverer != Idle then s
      else if m.response then DeliverResponse(s, m)
      else if |s.requests| < MAX_DEQUE_SIZE then
        s.(requests := s.requests + [s.delivered], delivered := s.delivered + 1)
      else s.(delivered := s.delivered + 1, deliverer := Full(s.delivered))
    case Evict =>
      if !s.deliverer.Full? then s
      else if s.requests == [] then s.(deliverer := Resend(s.deliverer.held))
      else
        s.(requests := s.requests[1..], dropped := s.dropped + [s.requests[0]],
           deliverer := Resend(s.deliverer.held))
    case Retry =>
      if !s.deliverer.Resend? then s
      else if |s.requests| < MAX_DEQUE_SIZE then s.(requests := s.requests + [s.deliverer.held], deliverer := Idle)
      else s.(dropped := s.dropped + [s.deliverer.held], deliverer := Idle)
    case TakeRequest =>
      if s.requests == [] then s
      else s.(requests := s.requests[1..], consumed := s.consumed + [s.requests[0]])
    case Register(id) =>
      if id == 0 then s
      else s.(streams := s.streams + [Responses(id, [], [], Held)], queries := s.queries[id := |s.streams|])
    case TakeResponse(k) =>
      if !Live(s, k) || s.streams[k].queue == [] then s
      else
        var r := s.streams[k];
        s.(streams := s.streams[k := r.(taken := r.taken + [r.queue[0]], queue := r.queue[1..])])
    case Drop(k) =>
      if !Live(s, k) then s
      else s.(streams := s.streams[k := s.streams[k].(phase := Dropping)], queries := s.queries - {s.streams[k].id})
    case Close(k) =>
      if k >= |s.streams| || s.streams[k].phase != Dropping then s
      else s.(streams := s.streams[k := s.streams[k].(phase := Gone)])
  }

  function DeliverResponse(s: State, m: Message): State {
    if m.id == 0 || m.id !in s.queries then s
    else
      var k := s.queries[m.id];
      if k >= |s.streams| || s.streams[k].phase == Gone || |s.streams[k].queue| >= MAX_DEQUE_SIZE then s
      else s.(streams := s.streams[k := s.streams[k].(queue := s.streams[k].queue + [m])])
  }

  function Exec(actions: seq<Action>): State {
    if actions == [] then START else Step(Exec(actions[..|actions| - 1]), actions[|actions| - 1])
  }

  /** The router as the program holds it. Each call is a run of the steps above that no other
      task interrupts. */
  class PacketRouter {
    var requests: seq<nat>
    var delivered: nat
    var queries: map<u16, nat>
    var streams: seq<Responses>
    ghost var consumed: seq<nat>
    ghost var dropped: seq<nat>

    /** The bound of the request channel. */
    ghost predicate Valid()
      reads this
    {
      |requests| <= MAX_DEQUE_SIZE
    }

    ghost function Value(): State
      reads this
    {
      State(requests, delivered, Idle, consumed, dropped, queries, streams)
    }

    constructor ()
      ensures Valid() && Value() == START
    {
      requests, delivered, queries, streams := [], 0, map[], [];
      consumed, dropped := [], [];
    }

    method ReceiveQuery() returns (r: Option<nat>)
      requires Valid()
      modifies this
      ensures Valid() && Value() == Step(old(Value()), TakeRequest)
      ensures r == if old(requests) == [] then None else Some(old(requests)[0])
    {
      if requests == [] {
        return None;
      }
      r := Some(requests[0]);
      consumed := consumed + [requests[0]];
      requests := requests[1..];
    }

    method RegisterQuery(id: u16) returns (stream: nat)
      requires Valid() && id != 0
      modifies this
      ensures Valid() && Value() == Step(old(Value()), Register(id))
      ensures Live(Value(), stream) && Registered(Value(), stream) && stream == |old(streams)|
    {
      stream := |streams|;
      streams := streams + [Responses(id, [], [], Held)];
      queries := queries[id := stream];
    }

    /** The next response of a stream, if there is one. */
    method NextResponse(stream: nat) returns (r: Option<Message>)
      requires Valid() && Live(Value(), stream)
      modifies this
      ensures Valid() && Value() == Step(old(Value()), TakeResponse(stream))
      ensures r == if old(streams[stream].queue) == [] then None else Some(old(streams[stream].queue[0]))
    {
      var responses := streams[stream];
      if responses.queue == [] {
        return None;
      }
      r := Some(responses.queue[0]);
      streams := streams[stream := responses.(taken := responses.taken + [r.value], queue := responses.queue[1..])];
    }

    method DropResponses(stream: nat)
      requires Valid() && Live(Value(), stream)
      modifies this
      ensures Valid() && Value() == Step(Step(old(Value()), Drop(stream)), Close(stream))
    {
      queries := queries - {streams[stream].id};
      streams := streams[stream := streams[stream].(phase := Dropping)];
      streams := streams[stream := streams[stream].(phase := Gone)];
    }

    /** A request that finds the queue full makes room for itself. */
    method Deliver(m: Message)
      requires Valid()
      modifies this
      ensures Valid() && Value() == Step(Step(Step(old(Value()), Action.Deliver(m)), Evict), Retry)
      ensures !m.response ==> requests != [] && requests[|requests| - 1] == old(delivered)
    {
      if m.response {
        if m.id != 0 && m.id in queries {
          var k := queries[m.id];
          if k < |streams| && streams[k].phase != Gone && |streams[k].queue| < MAX_DEQUE_SIZE {
            streams := streams[k := streams[k].(queue := streams[k].queue + [m])];
          }
        }
        return;
      }
      var request := delivered;
      delivered := delivered + 1;
      if |requests| >= MAX_DEQUE_SIZE {
        dropped := dropped + [requests[0]];
        requests := requests[1..];
      }
      requests := requests + [request];
    }
  }

  // ------------------------------------------------------------------------------------------
  // Requests

  ghost predicate Increasing(s: seq<nat>) {
    forall i, j :: 0 <= i < j < |s| ==> s[i] < s[j]
  }

  /** The first request that has not left the queue, and the first not yet in it. */
  function Head(s: State): int {
    Tail(s) - |s.requests|
  }

  function Tail(s: State): int {
    if s.deliverer == Idle then s.delivered else s.deliverer.held
  }

  /** The queue is a run of consecutive requests; all before it were consumed or dropped, in
      order, and none after it has been lost. */
  ghost predicate QueueInv(s: State) {
    && |s.requests| <= MAX_DEQUE_SIZE
    && (s.deliverer.Resend? ==> |s.requests| < MAX_DEQUE_SIZE)
    && (s.deliverer != Idle ==> s.deliverer.held + 1 == s.delivered)
    && Head(s) >= 0
    && (forall i :: 0 <= i < |s.requests| ==> s.requests[i] == Head(s) + i)
    && Increasing(s.consumed) && Increasing(s.dropped)
    && (forall n :: n in s.consumed ==> n < Head(s))
    && (forall n :: n in s.dropped ==> n < Head(s) && n + 1 < s.delivered)
    && (forall n :: 0 <= n < Head(s) ==> n in s.consumed || n in s.dropped)
    && (forall n :: n in s.consumed ==> n !in s.dropped)
  }

  lemma AppendIncreasing(s: seq<nat>, n: nat)
    requires Increasing(s) && forall m :: m in s ==> m < n
    ensures Increasing(s + [n])
  {
    var all := s + [n];
    forall i, j | 0 <= i < j < |all|
      ensures all[i] < all[j]
    {
      if j == |s| {
        assert s[i] in s;
      }
    }
  }

  /** The head of the queue leaves, to be consumed or dropped. */
  lemma HeadLeaves(s: State, s': State)
    requires QueueInv(s) && s.requests != [] && s'.requests == s.requests[1..]
    requires s'.delivered == s.delivered && Tail(s') == Tail(s)
    ensures Head(s') == Head(s) + 1 && s.requests[0] == Head(s)
    ensures forall i :: 0 <= i < |s'.requests| ==> s'.requests[i] == Head(s') + i
    ensures Increasing(s.consumed + [s.requests[0]]) && Increasing(s.dropped + [s.requests[0]])
  {
    AppendIncreasing(s.consumed, s.requests[0]);
    AppendIncreasing(s.dropped, s.requests[0]);
    assert forall i :: 0 <= i < |s'.requests| ==> s'.requests[i] == s.requests[i + 1];
  }

  lemma TakeKeepsQueue(s: State)
    requires QueueInv(s) && s.requests != []
    ensures QueueInv(Step(s, TakeRequest))
  {
    hide Increasing;
    HeadLeaves(s, Step(s, TakeRequest));
  }

  lemma EvictKeepsQueue(s: State)
    requires QueueInv(s) && s.requests != [] && s.deliverer.Full?
    ensures QueueInv(Step(s, Evict))
  {
    hide Increasing;
    HeadLeaves(s, Step(s, Evict));
  }

  lemma StepKeepsQueue(s: State, a: Action)
    requires QueueInv(s)
    ensures QueueInv(Step(s, a))
  {
    hide Increasing;
    match a
    case TakeRequest => if s.requests != [] { TakeKeepsQueue(s); }
    case Evict => if s.requests != [] && s.deliverer.Full? { EvictKeepsQueue(s); }
    case Deliver(_) =>
    case Retry =>
    case _ =>
  }

  lemma {:induction false} EveryRunQueues(actions: seq<Action>)
    ensures QueueInv(Exec(actions))
  {
    hide Step, QueueInv;
    if actions == [] {
      StartQueue();
    } else {
      EveryRunQueues(actions[..|actions| - 1]);
      StepKeepsQueue(Exec(actions[..|actions| - 1]), actions[|actions| - 1]);
    }
  }

  lemma StartQueue()
    ensures QueueInv(START)
  {
  }

  /** In every run with one delivering task: the queue is bounded, requests are consumed in the
      order of delivery and none twice, and one is dropped only after a later one has arrived;
      every other request has been consumed, is queued, or is in the deliverer's hand. */
  lemma RequestsInOrder(actions: seq<Action>)
    ensures var s := Exec(actions);
            && |s.requests| <= 64
            && Increasing(s.consumed)
            && (forall n :: n in s.consumed ==> n < s.delivered)
            && (forall n :: n in s.dropped ==> n + 1 < s.delivered && n !in s.consumed)
            && (forall n :: 0 <= n < s.delivered ==>
                  n in s.consumed || n in s.dropped || n in s.requests || (n == s.delivered - 1 && s.deliverer != Idle))
  {
    EveryRunQueues(actions);
    var s := Exec(actions);
    forall n | 0 <= n < s.delivered && n !in s.consumed && n !in s.dropped
      ensures n in s.requests || (n == s.delivered - 1 && s.deliverer != Idle)
    {
      if n < Tail(s) {
        assert s.requests[n - Head(s)] == n;
      }
    }
  }

  // ------------------------------------------------------------------------------------------
  // Responses

  /** Streams hold only responses with their own, non-zero id; the map points at streams of the
      id it is asked for. */
  ghost predicate RoutesInv(s: State) {
    && (forall k :: 0 <= k < |s.streams| ==>
          && s.streams[k].id != 0 && |s.streams[k].queue| <= MAX_DEQUE_SIZE
          && forall m :: m in s.streams[k].queue ==> m.response && m.id == s.streams[k].id)
    && (forall id :: id in s.queries ==> s.queries[id] < |s.streams| && s.streams[s.queries[id]].id == id)
  }

  lemma ResponseKeepsRoutes(s: State, m: Message)
    requires RoutesInv(s)
    ensures m.response ==> RoutesInv(DeliverResponse(s, m))
  {
  }

  lemma StepKeepsRoutes(s: State, a: Action)
    requires RoutesInv(s)
    ensures RoutesInv(Step(s, a))
  {
    hide DeliverResponse;
    match a
    case Deliver(m) => ResponseKeepsRoutes(s, m);
    case Register(_) =>
    case TakeResponse(_) =>
    case Drop(_) =>
    case _ =>
  }

  lemma {:induction false} EveryRunRoutes(actions: seq<Action>)
    ensures RoutesInv(Exec(actions))
  {
    hide Step, RoutesInv;
    if actions == [] {
      StartRoutes();
    } else {
      EveryRunRoutes(actions[..|actions| - 1]);
      StepKeepsRoutes(Exec(actions[..|actions| - 1]), actions[|actions| - 1]);
    }
  }

  lemma StartRoutes()
    ensures RoutesInv(START)
  {
  }

  predicate Registered(s: State, k: nat) {
    k < |s.streams| && s.streams[k].id in s.queries && s.queries[s.streams[k].id] == k
  }

  /** The stream a response goes to: the one registered under its non-zero id, while its channel
      is there and has room. */
  predicate Reaches(s: State, m: Message, k: nat) {
    && m.response && m.id != 0 && Registered(s, k) && s.streams[k].id == m.id
    && s.streams[k].phase != Gone && |s.streams[k].queue| < 64
  }

  /** A response is appended to the queue of the stream it reaches, and changes nothing else. */
  lemma ResponseRouted(s: State, m: Message, k: nat)
    requires RoutesInv(s) && s.deliverer == Idle && m.response && k < |s.streams|
    ensures var s' := Step(s, Deliver(m));
            && |s'.streams| == |s.streams|
            && (Reaches(s, m, k) ==> s'.streams[k] == s.streams[k].(queue := s.streams[k].queue + [m]))
            && (!Reaches(s, m, k) ==> s'.streams[k] == s.streams[k])
            && s' == s.(streams := s'.streams)
  {
  }

  /** The responses delivered for stream `k` while it was registered and had room. */
  function Routed(actions: seq<Action>, k: nat): seq<Message> {
    if actions == [] then []
    else
      var init, last := actions[..|actions| - 1], actions[|actions| - 1];
      Routed(init, k) +
      if last.Deliver? && Exec(init).deliverer == Idle && Reaches(Exec(init), last.message, k) then [last.message]
      else []
  }

  /** What was taken from a stream, followed by what waits in it. */
  function Received(r: Responses): seq<Message> {
    r.taken + r.queue
  }

  lemma ReceivedStep(s: State, a: Action, k: nat)
    requires RoutesInv(s) && k < |s.streams|
    ensures k < |Step(s, a).streams|
    ensures Received(Step(s, a).streams[k]) ==
            Received(s.streams[k]) +
            if a.Deliver? && s.deliverer == Idle && Reaches(s, a.message, k) then [a.message] else []
  {
    hide Reaches, DeliverResponse, RoutesInv;
    var r := s.streams[k];
    match a
    case Deliver(m) =>
      if s.deliverer == Idle && m.response {
        ResponseRouted(s, m, k);
      } else {
        OnlyResponsesReach(s, m, k);
      }
    case TakeResponse(j) =>
      if j == k && Live(s, k) && r.queue != [] {
        assert r.taken + [r.queue[0]] + r.queue[1..] == r.taken + r.queue;
      }
    case _ =>
  }

  lemma OnlyResponsesReach(s: State, m: Message, k: nat)
    ensures Reaches(s, m, k) ==> m.response
  {
  }

  /** In every run, what was taken from a stream followed by its queue is, in order, exactly the
      responses that were delivered for it while it was registered and had room. */
  lemma {:induction false} EveryRunDelivers(actions: seq<Action>, k: nat)
    ensures k < |Exec(actions).streams| ==> Received(Exec(actions).streams[k]) == Routed(actions, k)
    ensures k >= |Exec(actions).streams| ==> Routed(actions, k) == []
  {
    hide Step, Reaches, RoutesInv, Received;
    if actions != [] {
      var init, last := actions[..|actions| - 1], actions[|actions| - 1];
      var s := Exec(init);
      EveryRunDelivers(init, k);
      EveryRunRoutes(init);
      if k < |s.streams| {
        ReceivedStep(s, last, k);
      } else {
        NotYetReached(s, last, k);
      }
    }
  }

  lemma NotYetReached(s: State, a: Action, k: nat)
    requires k >= |s.streams|
    ensures a.Deliver? ==> !Reaches(s, a.message, k)
    ensures k < |Step(s, a).streams| ==> Received(Step(s, a).streams[k]) == []
  {
  }

  /** A request is dropped only by an eviction that was due to 64 waiting requests. */
  lemma DropsOnlyWhenFull(s: State, a: Action)
    requires QueueInv(s)
    ensures Step(s, a).dropped != s.dropped ==> a == Evict && s.deliverer.Full?
    ensures Step(s, a).deliverer.Full? && !s.deliverer.Full? ==> |s.requests| == 64
    ensures a.Deliver? && !a.message.response && s.deliverer == Idle && |s.requests| < 64 ==>
              Step(s, a).requests == s.requests + [s.delivered]
  {
  }

  /** What takes a stream out of the map while it lives: another registration of its id, or the
      drop of another live stream of that id, which removes whatever is registered under it. */
  predicate Disturbs(s: State, a: Action, k: nat) {
    && k < |s.streams|
    && match a
       case Register(id) => id == s.streams[k].id && id != 0
       case Drop(j) => j != k && Live(s, j) && s.streams[j].id == s.streams[k].id
       case _ => false
  }

  lemma RegisteredStep(s: State, a: Action, k: nat)
    requires RoutesInv(s) && k < |s.streams| && a != Drop(k)
    ensures var s' := Step(s, a);
            k < |s'.streams| && s'.streams[k].id == s.streams[k].id && (Live(s', k) <==> Live(s, k))
    ensures Registered(Step(s, a), k) <==> Registered(s, k) && !Disturbs(s, a, k)
  {
    match a
    case Deliver(m) =>
    case Register(_) =>
    case Drop(_) =>
    case TakeResponse(_) =>
    case _ =>
  }

  /** No step of `after`, run from `before`, disturbs stream `k`. */
  ghost predicate Undisturbed(before: seq<Action>, after: seq<Action>, k: nat)
    decreases |after|
  {
    after == [] ||
    (Undisturbed(before, after[..|after| - 1], k) &&
     !Disturbs(Exec(before + after[..|after| - 1]), after[|after| - 1], k))
  }

  /** A stream that is never dropped stays registered exactly as long as nothing disturbs it. */
  lemma {:induction false} RegisteredIffUndisturbed(before: seq<Action>, id: u16, after: seq<Action>)
    requires id != 0
    requires Drop(|Exec(before).streams|) !in after
    ensures var k := |Exec(before).streams|;
            && k < |Exec(before + [Register(id)] + after).streams|
            && (Registered(Exec(before + [Register(id)] + after), k) <==>
                Undisturbed(before + [Register(id)], after, k))
    decreases |after|
  {
    hide Disturbs, Registered;
    var k := |Exec(before).streams|;
    var first := before + [Register(id)];
    assert first[..|before|] == before;
    if after == [] {
      assert first + after == first;
      JustRegistered(Exec(before), id);
    } else {
      var after', last := after[..|after| - 1], after[|after| - 1];
      assert last in after;
      RegisteredIffUndisturbed(before, id, after');
      assert (first + after)[..|first + after| - 1] == first + after';
      EveryRunRoutes(first + after');
      RegisteredStep(Exec(first + after'), last, k);
    }
  }

  lemma JustRegistered(s: State, id: u16)
    requires id != 0
    ensures Registered(Step(s, Register(id)), |s.streams|) && Live(Step(s, Register(id)), |s.streams|)
  {
  }

  /** Each id is registered only while no live stream has it. */
  ghost predicate DistinctLiveIds(actions: seq<Action>) {
    actions == [] ||
    (DistinctLiveIds(actions[..|actions| - 1]) &&
     var s := Exec(actions[..|actions| - 1]);
     var a := actions[|actions| - 1];
     a.Register? ==> forall k: nat :: Live(s, k) ==> s.streams[k].id != a.id)
  }

  /** With distinct live ids, every stream stays registered until it is dropped. */
  lemma {:induction false} LiveStaysRegistered(actions: seq<Action>)
    requires DistinctLiveIds(actions)
    ensures forall k: nat :: Live(Exec(actions), k) ==> Registered(Exec(actions), k)
  {
    if actions != [] {
      var init, a := actions[..|actions| - 1], actions[|actions| - 1];
      var s, s' := Exec(init), Exec(actions);
      LiveStaysRegistered(init);
      EveryRunRoutes(init);
      forall k: nat | Live(s', k)
        ensures Registered(s', k)
      {
        if k < |s.streams| {
          assert a != Drop(k);
          RegisteredStep(s, a, k);
        } else {
          JustRegistered(s, a.id);
        }
      }
    }
  }

  /** Without that, dropping one of two streams of an id unregisters the other. */
  lemma SharedIdExample()
    ensures var s := Exec([Register(7), Register(7), Drop(0)]);
            Live(s, 1) && !Registered(s, 1)
  {
    var a: seq<Action> := [Register(7), Register(7), Drop(0)];
    assert a[..2] == [Register(7), Register(7)] && a[..2][..1] == [Register(7)] && a[..1][..0] == [];
    assert Exec(a[..1]) == Step(START, Register(7));
    assert Exec(a[..2]) == Step(Exec(a[..1]), Register(7));
  }
}
