/** The set of multicast resolvers, one per binding: concurrent upserts, removals and shutdowns
    as atomic steps. */
module ResolverSet {
  import opened Bytes

  datatype Binding = Binding(device: string, ip: Bytes)

  /** A bound resolver instance; `id` is its identity. */
  datatype Resolver = Resolver(id: nat, binding: Binding)

  datatype UpsertError = BindFailed | Closed

  datatype UpsertResult = Registered(resolver: Resolver) | Refused(error: UpsertError)

  datatype RemoveResult = NotThere | RemovedOk | StopFailed

  /** Where a call is. An upsert loads the closed flag, reads the map, binds a candidate without
      a lock, and decides under the write lock; a candidate that lost the race is shut down. */
  datatype Task =
    | UpsertCheck(binding: Binding)
    | UpsertRead(binding: Binding)
    | UpsertBind(binding: Binding)
    | UpsertDecide(candidate: Resolver)
    | UpsertStop(binding: Binding, existing: Option<Resolver>)
    | UpsertDone(binding: Binding, result: UpsertResult)
    | RemoveTake(binding: Binding)
    | RemoveStop(taken: Resolver)
    | RemoveDone(outcome: RemoveResult)
    | ShutdownClose
    | ShutdownDrain
    | ShutdownDone

  /** The points at which an upsert settles on a resolver, and at which entries leave the map. */
  datatype Event = Decided(task: nat, binding: Binding, resolver: Resolver) | Removed(binding: Binding) | Drained

  /** `retired` are the resolvers handed to their own shutdown; `bound` all those ever bound. */
  datatype State = State(
    closed: bool, drained: bool, resolvers: map<Binding, Resolver>, tasks: seq<Task>,
    bound: set<Resolver>, retired: set<Resolver>, history: seq<Event>)

  const START := State(false, false, map[], [], {}, {}, [])

  datatype Action =
    | Upsert(binding: Binding)
    | Remove(binding: Binding)
    | Shutdown
    | Run(task: nat, bindOk: bool, stopOk: bool)

  function Step(s: State, a: Action): State {
    match a
    case Upsert(binding) => s.(tasks := s.tasks + [UpsertCheck(binding)])
    case Remove(binding) => s.(tasks := s.tasks + [RemoveTake(binding)])
    case Shutdown => s.(tasks := s.tasks + [ShutdownClose])
    case Run(t, bindOk, stopOk) => if t < |s.tasks| then RunTask(s, t, bindOk, stopOk) else s
  }

  /** One atomic step of task `t`; the outcomes of binding and stopping come from outside. */
  function RunTask(s: State, t: nat, bindOk: bool, stopOk: bool): State
    requires t < |s.tasks|
  {
    match s.tasks[t]
    case UpsertCheck(b) => To(s, t, if s.closed then UpsertDone(b, Refused(Closed)) else UpsertRead(b))
    case UpsertRead(b) => AfterRead(s, t, b)
    case UpsertBind(b) => if bindOk then AfterBind(s, t, b) else To(s, t, UpsertDone(b, Refused(BindFailed)))
    case UpsertDecide(c) => AfterDecision(s, t, c)
    case UpsertStop(b, existing) => To(s, t, UpsertDone(b, AfterStop(existing, stopOk)))
    case RemoveTake(b) => AfterTake(s, t, b)
    case RemoveStop(_) => To(s, t, RemoveDone(if stopOk then RemovedOk else StopFailed))
    case ShutdownClose => To(s, t, ShutdownDrain).(closed := true)
    case ShutdownDrain => AfterDrain(s, t)
    case UpsertDone(_, _) => s
    case RemoveDone(_) => s
    case ShutdownDone => s
  }

  /** Under the read lock. */
  function AfterRead(s: State, t: nat, b: Binding): State
    requires t < |s.tasks|
  {
    if b in s.resolvers then Decide(To(s, t, UpsertDone(b, Registered(s.resolvers[b]))), t, b, s.resolvers[b])
    else To(s, t, UpsertBind(b))
  }

  function AfterBind(s: State, t: nat, b: Binding): State
    requires t < |s.tasks|
  {
    var candidate := Resolver(|s.bound|, b);
    To(s, t, UpsertDecide(candidate)).(bound := s.bound + {candidate})
  }

  /** Under the write lock. */
  function AfterDecision(s: State, t: nat, c: Resolver): State
    requires t < |s.tasks|
  {
    var b := c.binding;
    if s.closed then To(s, t, UpsertStop(b, None)).(retired := s.retired + {c})
    else if b in s.resolvers then
      Decide(To(s, t, UpsertStop(b, Some(s.resolvers[b]))), t, b, s.resolvers[b]).(retired := s.retired + {c})
    else
      Decide(To(s, t, UpsertDone(b, Registered(c))), t, b, c).(resolvers := s.resolvers[b := c])
  }

  function AfterStop(existing: Option<Resolver>, stopOk: bool): UpsertResult {
    if !stopOk then Refused(BindFailed)
    else if existing.Some? then Registered(existing.value)
    else Refused(Closed)
  }

  function AfterTake(s: State, t: nat, b: Binding): State
    requires t < |s.tasks|
  {
    if b in s.resolvers then
      To(s, t, RemoveStop(s.resolvers[b])).(
        resolvers := s.resolvers - {b}, retired := s.retired + {s.resolvers[b]}, history := s.history + [Removed(b)])
    else To(s, t, RemoveDone(NotThere))
  }

  function AfterDrain(s: State, t: nat): State
    requires t < |s.tasks|
  {
    To(s, t, ShutdownDone).(
      drained := true, resolvers := map[],
      retired := s.retired + s.resolvers.Values, history := s.history + [Drained])
  }

  function To(s: State, t: nat, task: Task): State
    requires t < |s.tasks|
  {
    s.(tasks := s.tasks[t := task])
  }

  function Decide(s: State, t: nat, b: Binding, r: Resolver): State {
    s.(history := s.history + [Decided(t, b, r)])
  }

  function Exec(actions: seq<Action>): State {
    if actions == [] then START else Step(Exec(actions[..|actions| - 1]), actions[|actions| - 1])
  }

  // ------------------------------------------------------------------------------------------
  // Where resolvers are

  predicate InMap(s: State, r: Resolver) {
    r.binding in s.resolvers && s.resolvers[r.binding] == r
  }

  ghost predicate InFlight(s: State, r: Resolver) {
    exists t :: 0 <= t < |s.tasks| && s.tasks[t] == UpsertDecide(r)
  }

  ghost predicate ExactlyOne(a: bool, b: bool, c: bool) {
    (a || b || c) && !(a && b) && !(a && c) && !(b && c)
  }

  /** Identities are never reused: a new candidate takes the number of those bound so far. */
  ghost predicate FreshIds(s: State) {
    forall r :: r in s.bound ==> r.id < |s.bound|
  }

  ghost predicate Placed(s: State) {
    && (forall r :: r in s.bound ==> ExactlyOne(InMap(s, r), InFlight(s, r), r in s.retired))
    && (forall b :: b in s.resolvers ==> s.resolvers[b].binding == b && s.resolvers[b] in s.bound)
    && (forall t :: 0 <= t < |s.tasks| && s.tasks[t].UpsertDecide? ==> s.tasks[t].candidate in s.bound)
    && s.retired <= s.bound
  }

  ghost predicate OneHolder(s: State) {
    forall t, u :: 0 <= t < u < |s.tasks| && s.tasks[t].UpsertDecide? ==> s.tasks[t] != s.tasks[u]
  }

  ghost predicate DrainedEmpty(s: State) {
    && (s.drained ==> s.closed && s.resolvers == map[])
    && (forall t :: 0 <= t < |s.tasks| && s.tasks[t].ShutdownDrain? ==> s.closed)
    && (forall t :: 0 <= t < |s.tasks| && s.tasks[t].ShutdownDone? ==> s.drained)
  }

  ghost predicate OnlyTask(s: State, t: nat, s': State) {
    && t < |s.tasks| == |s'.tasks|
    && forall u :: 0 <= u < |s.tasks| && u != t ==> s'.tasks[u] == s.tasks[u]
  }

  /** What a step of task `t` may do to the flags and to the map: it opens nothing, and it adds
      to the map only while the set is open. */
  ghost predicate KeepsShut(s: State, t: nat, s': State) {
    && OnlyTask(s, t, s')
    && (s.closed ==> s'.closed) && (s.drained ==> s'.drained)
    && (s'.drained ==> s.drained || (s'.closed && s'.resolvers == map[]))
    && (s.closed ==> s'.resolvers.Keys <= s.resolvers.Keys)
    && (s'.tasks[t].ShutdownDrain? ==> s'.closed)
    && (s'.tasks[t].ShutdownDone? ==> s'.drained || s.tasks[t].ShutdownDone?)
  }

  lemma RunKeepsShut(s: State, t: nat, bindOk: bool, stopOk: bool)
    requires t < |s.tasks| && (s.tasks[t].ShutdownDrain? ==> s.closed)
    ensures KeepsShut(s, t, RunTask(s, t, bindOk, stopOk))
  {
    hide KeepsShut;
    var s' := RunTask(s, t, bindOk, stopOk);
    match s.tasks[t]
    case UpsertCheck(_) => CalmStep(s, t, s');
    case UpsertRead(_) => CalmStep(s, t, s');
    case UpsertBind(_) => CalmStep(s, t, s');
    case UpsertDecide(c) => DecisionKeepsShut(s, t, c);
    case UpsertStop(_, _) => CalmStep(s, t, s');
    case RemoveTake(b) => TakeKeepsShut(s, t, b);
    case RemoveStop(_) => CalmStep(s, t, s');
    case ShutdownClose => CloseKeepsShut(s, t);
    case ShutdownDrain => DrainKeepsShut(s, t);
    case _ => CalmStep(s, t, s');
  }

  /** A step that touches neither the flags nor the map. */
  lemma CalmStep(s: State, t: nat, s': State)
    requires t < |s.tasks| == |s'.tasks| && s'.tasks == s.tasks[t := s'.tasks[t]]
    requires s'.closed == s.closed && s'.drained == s.drained && s'.resolvers == s.resolvers
    requires !s'.tasks[t].ShutdownDrain? && (s'.tasks[t].ShutdownDone? ==> s.tasks[t].ShutdownDone?)
    ensures KeepsShut(s, t, s')
  {
  }

  lemma DecisionKeepsShut(s: State, t: nat, c: Resolver)
    requires t < |s.tasks|
    ensures KeepsShut(s, t, AfterDecision(s, t, c))
  {
  }

  lemma TakeKeepsShut(s: State, t: nat, b: Binding)
    requires t < |s.tasks|
    ensures KeepsShut(s, t, AfterTake(s, t, b))
  {
  }

  lemma CloseKeepsShut(s: State, t: nat)
    requires t < |s.tasks|
    ensures KeepsShut(s, t, To(s, t, ShutdownDrain).(closed := true))
  {
  }

  lemma DrainKeepsShut(s: State, t: nat)
    requires t < |s.tasks| && s.closed
    ensures KeepsShut(s, t, AfterDrain(s, t))
  {
  }

  lemma StepKeepsDrained(s: State, a: Action)
    requires DrainedEmpty(s)
    ensures DrainedEmpty(Step(s, a)) && (s.drained ==> Step(s, a).drained)
  {
    hide RunTask;
    if a.Run? && a.task < |s.tasks| {
      RunKeepsShut(s, a.task, a.bindOk, a.stopOk);
    }
  }

  /** A step that moves no resolver. */
  lemma QuietStep(s: State, t: nat, task: Task, s': State)
    requires Placed(s) && OneHolder(s) && FreshIds(s) && t < |s.tasks|
    requires !s.tasks[t].UpsertDecide? && !task.UpsertDecide?
    requires s'.tasks == s.tasks[t := task]
    requires s'.resolvers == s.resolvers && s'.bound == s.bound && s'.retired == s.retired
    ensures Placed(s') && OneHolder(s') && FreshIds(s')
  {
    forall r
      ensures InFlight(s', r) <==> InFlight(s, r)
    {
      if u :| 0 <= u < |s.tasks| && s.tasks[u] == UpsertDecide(r) {
        assert s'.tasks[u] == UpsertDecide(r);
      }
    }
  }

  lemma BindStep(s: State, t: nat, s': State)
    requires Placed(s) && OneHolder(s) && FreshIds(s) && t < |s.tasks| && s.tasks[t].UpsertBind?
    requires s' == AfterBind(s, t, s.tasks[t].binding)
    ensures Placed(s') && OneHolder(s') && FreshIds(s')
  {
    var c := Resolver(|s.bound|, s.tasks[t].binding);
    assert c !in s.bound;
    forall r
      ensures InFlight(s', r) <==> InFlight(s, r) || r == c
    {
      assert s'.tasks[t] == UpsertDecide(c);
      if u :| 0 <= u < |s.tasks| && s.tasks[u] == UpsertDecide(r) {
        assert s'.tasks[u] == UpsertDecide(r);
      }
    }
    forall r | r in s'.bound
      ensures InMap(s', r) == InMap(s, r)
    {
    }
  }

  /** A candidate that decided is no longer in flight; no other one moved. */
  lemma LeavesFlight(s: State, t: nat, s': State)
    requires OneHolder(s) && t < |s.tasks| && s.tasks[t].UpsertDecide?
    requires OnlyTask(s, t, s') && !s'.tasks[t].UpsertDecide?
    ensures OneHolder(s')
    ensures forall r :: InFlight(s', r) <==> InFlight(s, r) && r != s.tasks[t].candidate
  {
    forall r
      ensures InFlight(s', r) <==> InFlight(s, r) && r != s.tasks[t].candidate
    {
      if u :| 0 <= u < |s.tasks| && s.tasks[u] == UpsertDecide(r) && r != s.tasks[t].candidate {
        assert s'.tasks[u] == UpsertDecide(r);
      }
    }
  }

  /** The decision under the lock: the candidate leaves the flight, for the map or for shutdown. */
  lemma DecideStep(s: State, t: nat, s': State)
    requires Placed(s) && OneHolder(s) && FreshIds(s) && t < |s.tasks| && s.tasks[t].UpsertDecide?
    requires s' == AfterDecision(s, t, s.tasks[t].candidate)
    ensures Placed(s') && OneHolder(s') && FreshIds(s')
  {
    hide InFlight;
    var c := s.tasks[t].candidate;
    assert InFlight(s, c) by { HoldsCandidate(s, t); }
    LeavesFlight(s, t, s');
    assert ExactlyOne(InMap(s, c), InFlight(s, c), c in s.retired);
    forall r | r in s'.bound
      ensures ExactlyOne(InMap(s', r), InFlight(s', r), r in s'.retired)
    {
      assert ExactlyOne(InMap(s, r), InFlight(s, r), r in s.retired);
      if r != c {
        assert InMap(s', r) == InMap(s, r);
      }
    }
  }

  lemma HoldsCandidate(s: State, t: nat)
    requires t < |s.tasks| && s.tasks[t].UpsertDecide?
    ensures InFlight(s, s.tasks[t].candidate)
  {
  }

  lemma TakeStep(s: State, t: nat, s': State)
    requires Placed(s) && OneHolder(s) && FreshIds(s) && t < |s.tasks|
    requires s.tasks[t].RemoveTake? && s.tasks[t].binding in s.resolvers
    requires s' == AfterTake(s, t, s.tasks[t].binding)
    ensures Placed(s') && OneHolder(s') && FreshIds(s')
  {
    SameFlight(s, t, s');
    forall r | r in s'.bound
      ensures ExactlyOne(InMap(s', r), InFlight(s', r), r in s'.retired)
    {
      assert ExactlyOne(InMap(s, r), InFlight(s, r), r in s.retired);
    }
  }

  lemma DrainStep(s: State, t: nat, s': State)
    requires Placed(s) && OneHolder(s) && FreshIds(s) && t < |s.tasks| && s.tasks[t].ShutdownDrain?
    requires s' == AfterDrain(s, t)
    ensures Placed(s') && OneHolder(s') && FreshIds(s')
  {
    SameFlight(s, t, s');
    forall r | r in s'.bound
      ensures ExactlyOne(InMap(s', r), InFlight(s', r), r in s'.retired)
    {
      assert ExactlyOne(InMap(s, r), InFlight(s, r), r in s.retired);
      assert InMap(s, r) <==> r in s.resolvers.Values;
    }
  }

  lemma SameFlight(s: State, t: nat, s': State)
    requires t < |s.tasks| && |s'.tasks| == |s.tasks|
    requires !s.tasks[t].UpsertDecide? && !s'.tasks[t].UpsertDecide?
    requires forall u :: 0 <= u < |s.tasks| && u != t ==> s'.tasks[u] == s.tasks[u]
    ensures forall r :: InFlight(s', r) <==> InFlight(s, r)
  {
    forall r
      ensures InFlight(s', r) <==> InFlight(s, r)
    {
      if u :| 0 <= u < |s.tasks| && s.tasks[u] == UpsertDecide(r) {
        assert s'.tasks[u] == UpsertDecide(r);
      }
    }
  }

  lemma SpawnStep(s: State, task: Task, s': State)
    requires Placed(s) && OneHolder(s) && FreshIds(s) && !task.UpsertDecide?
    requires s' == s.(tasks := s.tasks + [task])
    ensures Placed(s') && OneHolder(s') && FreshIds(s')
  {
    forall r
      ensures InFlight(s', r) <==> InFlight(s, r)
    {
      if u :| 0 <= u < |s.tasks| && s.tasks[u] == UpsertDecide(r) {
        assert s'.tasks[u] == UpsertDecide(r);
      }
    }
  }

  lemma RunKeepsPlaces(s: State, t: nat, bindOk: bool, stopOk: bool)
    requires Placed(s) && OneHolder(s) && FreshIds(s) && t < |s.tasks|
    ensures var s' := RunTask(s, t, bindOk, stopOk);
            Placed(s') && OneHolder(s') && FreshIds(s')
  {
    hide Placed, OneHolder, FreshIds, AfterBind, AfterDecision, AfterDrain;
    var s' := RunTask(s, t, bindOk, stopOk);
    match s.tasks[t]
    case UpsertBind(_) => if bindOk { BindStep(s, t, s'); } else { QuietStep(s, t, s'.tasks[t], s'); }
    case UpsertDecide(_) => DecideStep(s, t, s');
    case RemoveTake(b) => if b in s.resolvers { TakeStep(s, t, s'); } else { QuietStep(s, t, s'.tasks[t], s'); }
    case ShutdownDrain => DrainStep(s, t, s');
    case UpsertDone(_, _) =>
    case RemoveDone(_) =>
    case ShutdownDone =>
    case _ => QuietStep(s, t, s'.tasks[t], s');
  }

  lemma StepKeepsPlaces(s: State, a: Action)
    requires Placed(s) && OneHolder(s) && FreshIds(s)
    ensures Placed(Step(s, a)) && OneHolder(Step(s, a)) && FreshIds(Step(s, a))
  {
    hide Placed, OneHolder, FreshIds, RunTask;
    match a
    case Upsert(b) => SpawnStep(s, UpsertCheck(b), Step(s, a));
    case Remove(b) => SpawnStep(s, RemoveTake(b), Step(s, a));
    case Shutdown => SpawnStep(s, ShutdownClose, Step(s, a));
    case Run(t, bindOk, stopOk) => if t < |s.tasks| { RunKeepsPlaces(s, t, bindOk, stopOk); }
  }

  lemma {:induction false} EveryRunPlaces(actions: seq<Action>)
    ensures Placed(Exec(actions)) && OneHolder(Exec(actions)) && FreshIds(Exec(actions))
  {
    hide Step, Placed, OneHolder, FreshIds;
    if actions == [] {
      StartPlaced();
    } else {
      EveryRunPlaces(actions[..|actions| - 1]);
      StepKeepsPlaces(Exec(actions[..|actions| - 1]), actions[|actions| - 1]);
    }
  }

  lemma StartPlaced()
    ensures Placed(START) && OneHolder(START) && FreshIds(START)
  {
  }

  /** In every run, every resolver ever bound is in exactly one place: the map, an upsert that
      has not decided yet, or handed to its shutdown. */
  lemma NoResolverLost(actions: seq<Action>, r: Resolver)
    requires r in Exec(actions).bound
    ensures var s := Exec(actions);
            ExactlyOne(InMap(s, r), InFlight(s, r), r in s.retired)
  {
    EveryRunPlaces(actions);
  }

  lemma {:induction false} ExecConcat(a: seq<Action>, b: seq<Action>)
    requires Exec(a).drained
    ensures DrainedEmpty(Exec(a + b)) && Exec(a + b).drained
    decreases |b|
  {
    EveryRunDrained(a);
    if b == [] {
      assert a + b == a;
    } else {
      var b' := b[..|b| - 1];
      ExecConcat(a, b');
      assert (a + b)[..|a + b| - 1] == a + b';
      StepKeepsDrained(Exec(a + b'), b[|b| - 1]);
    }
  }

  lemma {:induction false} EveryRunDrained(actions: seq<Action>)
    ensures DrainedEmpty(Exec(actions))
  {
    if actions != [] {
      EveryRunDrained(actions[..|actions| - 1]);
      StepKeepsDrained(Exec(actions[..|actions| - 1]), actions[|actions| - 1]);
    }
  }

  /** Once a shutdown has drained the map it stays empty, whatever runs afterwards. */
  lemma DrainedForever(before: seq<Action>, after: seq<Action>)
    requires Exec(before).drained
    ensures Exec(before + after).resolvers == map[] && Exec(before + after).closed
  {
    ExecConcat(before, after);
  }

  /** In every run, once some shutdown has finished, the set is closed, the map empty, and every
      resolver ever bound was handed to its shutdown, but for candidates that will be when their
      upsert decides. */
  lemma FinishedShutdownDrained(actions: seq<Action>, t: nat)
    requires t < |Exec(actions).tasks| && Exec(actions).tasks[t].ShutdownDone?
    ensures var s := Exec(actions);
            && s.closed && s.resolvers == map[]
            && forall r :: r in s.bound ==> InFlight(s, r) || r in s.retired
  {
    EveryRunDrained(actions);
    forall r | r in Exec(actions).bound
      ensures InFlight(Exec(actions), r) || r in Exec(actions).retired
    {
      NoResolverLost(actions, r);
    }
  }

  // ------------------------------------------------------------------------------------------
  // What upserts decide

  /** The registrations that a history leaves. */
  function Current(h: seq<Event>): map<Binding, Resolver> {
    if h == [] then map[]
    else AfterEvent(Current(h[..|h| - 1]), h[|h| - 1])
  }

  function AfterEvent(before: map<Binding, Resolver>, e: Event): map<Binding, Resolver> {
    match e
    case Decided(_, b, r) => before[b := r]
    case Removed(b) => before - {b}
    case Drained => map[]
  }

  /** A decision never replaces a registration by another. */
  ghost predicate Consistent(h: seq<Event>) {
    forall i :: 0 <= i < |h| && h[i].Decided? && h[i].binding in Current(h[..i]) ==>
                  Current(h[..i])[h[i].binding] == h[i].resolver
  }

  ghost predicate DecidedBy(h: seq<Event>, t: nat, b: Binding, r: Resolver) {
    exists i :: 0 <= i < |h| && h[i] == Decided(t, b, r)
  }

  /** The resolver a task has settled on: returned, or to be returned once its own candidate
      is shut down. */
  function Claim(task: Task): Option<(Binding, Resolver)> {
    if task.UpsertDone? && task.result.Registered? then Some((task.binding, task.result.resolver))
    else if task.UpsertStop? && task.existing.Some? then Some((task.binding, task.existing.value))
    else None
  }

  ghost predicate Justified(s: State) {
    forall t :: 0 <= t < |s.tasks| && Claim(s.tasks[t]).Some? ==>
                  DecidedBy(s.history, t, Claim(s.tasks[t]).value.0, Claim(s.tasks[t]).value.1)
  }

  ghost predicate Faithful(s: State) {
    Current(s.history) == s.resolvers && Consistent(s.history) && Justified(s)
  }

  lemma AppendEvent(h: seq<Event>, e: Event)
    requires Consistent(h)
    requires e.Decided? && e.binding in Current(h) ==> Current(h)[e.binding] == e.resolver
    ensures Consistent(h + [e])
    ensures Current(h + [e]) == AfterEvent(Current(h), e)
  {
    var h' := h + [e];
    assert h'[..|h|] == h;
    forall i | 0 <= i < |h'| && h'[i].Decided? && h'[i].binding in Current(h'[..i])
      ensures Current(h'[..i])[h'[i].binding] == h'[i].resolver
    {
      if i < |h| {
        assert h'[..i] == h[..i];
      }
    }
  }

  /** The event that a step of task `t` records, if any. */
  function EventOf(s: State, t: nat): Option<Event>
    requires t < |s.tasks|
  {
    match s.tasks[t]
    case UpsertRead(b) => if b in s.resolvers then Some(Decided(t, b, s.resolvers[b])) else None
    case UpsertDecide(c) =>
      if s.closed then None
      else Some(Decided(t, c.binding, if c.binding in s.resolvers then s.resolvers[c.binding] else c))
    case RemoveTake(b) => if b in s.resolvers then Some(Removed(b)) else None
    case ShutdownDrain => Some(Drained)
    case _ => None
  }

  ghost predicate Quiet(s: State, t: nat, s': State) {
    && OnlyTask(s, t, s') && s'.history == s.history && s'.resolvers == s.resolvers
    && (Claim(s'.tasks[t]).Some? ==> Claim(s'.tasks[t]) == Claim(s.tasks[t]))
  }

  lemma QuietTo(s: State, t: nat, task: Task)
    requires t < |s.tasks| && (Claim(task).Some? ==> Claim(task) == Claim(s.tasks[t]))
    ensures Quiet(s, t, To(s, t, task))
  {
    hide Claim;
  }

  lemma QuietAbout(s: State, t: nat, s1: State, s': State)
    requires Quiet(s, t, s1)
    requires s'.tasks == s1.tasks && s'.history == s1.history && s'.resolvers == s1.resolvers
    ensures Quiet(s, t, s')
  {
    hide Claim;
  }

  lemma QuietEffect(s: State, t: nat, bindOk: bool, stopOk: bool)
    requires t < |s.tasks| && EventOf(s, t).None?
    ensures Quiet(s, t, RunTask(s, t, bindOk, stopOk))
  {
    hide Quiet, To;
    var s' := RunTask(s, t, bindOk, stopOk);
    match s.tasks[t]
    case UpsertCheck(b) => QuietTo(s, t, if s.closed then UpsertDone(b, Refused(Closed)) else UpsertRead(b));
    case UpsertRead(b) => QuietTo(s, t, UpsertBind(b));
    case UpsertBind(b) =>
      var task := if bindOk then UpsertDecide(Resolver(|s.bound|, b)) else UpsertDone(b, Refused(BindFailed));
      QuietTo(s, t, task);
      QuietAbout(s, t, To(s, t, task), s');
    case UpsertDecide(c) =>
      QuietTo(s, t, UpsertStop(c.binding, None));
      QuietAbout(s, t, To(s, t, UpsertStop(c.binding, None)), s');
    case UpsertStop(b, existing) => QuietTo(s, t, UpsertDone(b, AfterStop(existing, stopOk)));
    case RemoveTake(_) => QuietTo(s, t, RemoveDone(NotThere));
    case RemoveStop(_) => QuietTo(s, t, RemoveDone(if stopOk then RemovedOk else StopFailed));
    case ShutdownClose =>
      QuietTo(s, t, ShutdownDrain);
      QuietAbout(s, t, To(s, t, ShutdownDrain), s');
    case _ => StayedQuiet(s, t);
  }

  lemma StayedQuiet(s: State, t: nat)
    requires t < |s.tasks|
    ensures Quiet(s, t, s)
  {
  }

  lemma EventEffect(s: State, t: nat, bindOk: bool, stopOk: bool)
    requires t < |s.tasks| && EventOf(s, t).Some?
    ensures var s', e := RunTask(s, t, bindOk, stopOk), EventOf(s, t).value;
            && OnlyTask(s, t, s') && s'.history == s.history + [e] && s'.resolvers == AfterEvent(s.resolvers, e)
            && (e.Decided? && e.binding in s.resolvers ==> s.resolvers[e.binding] == e.resolver)
            && (Claim(s'.tasks[t]).Some? ==> e == Decided(t, Claim(s'.tasks[t]).value.0, Claim(s'.tasks[t]).value.1))
  {
    match s.tasks[t]
    case UpsertRead(b) => assert s.resolvers[b := s.resolvers[b]] == s.resolvers;
    case UpsertDecide(c) =>
      if c.binding in s.resolvers {
        assert s.resolvers[c.binding := s.resolvers[c.binding]] == s.resolvers;
      }
    case RemoveTake(_) =>
    case ShutdownDrain =>
  }

  lemma DecidedByGrows(h: seq<Event>, e: Event, t: nat, b: Binding, r: Resolver)
    requires DecidedBy(h, t, b, r) || e == Decided(t, b, r)
    ensures DecidedBy(h + [e], t, b, r)
  {
    if DecidedBy(h, t, b, r) {
      var i :| 0 <= i < |h| && h[i] == Decided(t, b, r);
      assert (h + [e])[i] == Decided(t, b, r);
    } else {
      assert (h + [e])[|h|] == Decided(t, b, r);
    }
  }

  lemma StepKeepsFaith(s: State, a: Action)
    requires Faithful(s)
    ensures Faithful(Step(s, a))
  {
    hide Current, Consistent, RunTask, DecidedBy, Claim, EventOf;
    if a.Run? && a.task < |s.tasks| {
      var s' := RunTask(s, a.task, a.bindOk, a.stopOk);
      if EventOf(s, a.task).None? {
        QuietEffect(s, a.task, a.bindOk, a.stopOk);
      } else {
        var e := EventOf(s, a.task).value;
        EventEffect(s, a.task, a.bindOk, a.stopOk);
        AppendEvent(s.history, e);
        forall u | 0 <= u < |s'.tasks| && Claim(s'.tasks[u]).Some?
          ensures DecidedBy(s'.history, u, Claim(s'.tasks[u]).value.0, Claim(s'.tasks[u]).value.1)
        {
          DecidedByGrows(s.history, e, u, Claim(s'.tasks[u]).value.0, Claim(s'.tasks[u]).value.1);
        }
      }
    } else if !a.Run? {
      SpawnedClaimsNothing(s, a);
    }
  }

  lemma SpawnedClaimsNothing(s: State, a: Action)
    requires !a.Run?
    ensures var s' := Step(s, a);
            |s'.tasks| == |s.tasks| + 1 && s'.tasks[..|s.tasks|] == s.tasks && Claim(s'.tasks[|s.tasks|]).None?
  {
  }

  lemma {:induction false} EveryRunFaithful(actions: seq<Action>)
    ensures Faithful(Exec(actions))
  {
    hide Step, Faithful;
    if actions == [] {
      StartFaithful();
    } else {
      EveryRunFaithful(actions[..|actions| - 1]);
      StepKeepsFaith(Exec(actions[..|actions| - 1]), actions[|actions| - 1]);
    }
  }

  lemma StartFaithful()
    ensures Faithful(START)
  {
  }

  ghost predicate Undisturbed(h: seq<Event>, i: nat, j: nat, b: Binding) {
    forall k :: i < k < j && k < |h| ==> !h[k].Drained? && h[k] != Removed(b)
  }

  lemma {:induction false} DecisionStands(h: seq<Event>, i: nat, j: nat, b: Binding)
    requires i < j <= |h| && h[i].Decided? && h[i].binding == b
    requires Consistent(h) && Undisturbed(h, i, j, b)
    ensures b in Current(h[..j]) && Current(h[..j])[b] == h[i].resolver
    decreases j
  {
    assert h[..j][..j - 1] == h[..j - 1];
    if i < j - 1 {
      DecisionStands(h, i, j - 1, b);
    }
  }

  /** Two decisions for one binding with no removal of it and no drain between them agree. */
  lemma UpsertsAgree(actions: seq<Action>, i: nat, j: nat, b: Binding)
    requires var h := Exec(actions).history;
             && i < j < |h| && h[i].Decided? && h[j].Decided? && h[i].binding == b == h[j].binding
             && Undisturbed(h, i, j, b)
    ensures Exec(actions).history[i].resolver == Exec(actions).history[j].resolver
  {
    EveryRunFaithful(actions);
    DecisionStands(Exec(actions).history, i, j, b);
  }

  lemma SuccessWasDecided(actions: seq<Action>, t: nat)
    requires t < |Exec(actions).tasks|
    requires Exec(actions).tasks[t].UpsertDone? && Exec(actions).tasks[t].result.Registered?
    ensures DecidedBy(Exec(actions).history, t, Exec(actions).tasks[t].binding, Exec(actions).tasks[t].result.resolver)
  {
    EveryRunFaithful(actions);
    assert Claim(Exec(actions).tasks[t]).Some?;
  }

  /** The task has settled on `r`: it returns it now or later, unless the shutdown of its own
      candidate fails. */
  predicate SettledOn(task: Task, b: Binding, r: Resolver) {
    || Claim(task) == Some((b, r))
    || task == UpsertDone(b, Refused(BindFailed))
  }

  ghost predicate DecidesOnce(s: State) {
    forall i :: 0 <= i < |s.history| && s.history[i].Decided? ==>
                  && s.history[i].task < |s.tasks|
                  && SettledOn(s.tasks[s.history[i].task], s.history[i].binding, s.history[i].resolver)
  }

  lemma SettledStays(s: State, t: nat, bindOk: bool, stopOk: bool, b: Binding, r: Resolver)
    requires t < |s.tasks| && SettledOn(s.tasks[t], b, r)
    ensures EventOf(s, t).None?
    ensures SettledOn(RunTask(s, t, bindOk, stopOk).tasks[t], b, r)
  {
  }

  lemma DecisionSettles(s: State, t: nat, bindOk: bool, stopOk: bool)
    requires t < |s.tasks| && EventOf(s, t).Some? && EventOf(s, t).value.Decided?
    ensures var e, s' := EventOf(s, t).value, RunTask(s, t, bindOk, stopOk);
            e.task == t && SettledOn(s'.tasks[t], e.binding, e.resolver)
  {
    match s.tasks[t]
    case UpsertRead(_) =>
    case UpsertDecide(_) =>
  }

  lemma RunDecidesOnce(s: State, t: nat, bindOk: bool, stopOk: bool)
    requires DecidesOnce(s) && t < |s.tasks|
    ensures DecidesOnce(RunTask(s, t, bindOk, stopOk))
  {
    hide RunTask, SettledOn, EventOf;
    var s' := RunTask(s, t, bindOk, stopOk);
    if EventOf(s, t).None? {
      QuietEffect(s, t, bindOk, stopOk);
    } else {
      EventEffect(s, t, bindOk, stopOk);
    }
    forall i | 0 <= i < |s'.history| && s'.history[i].Decided?
      ensures s'.history[i].task < |s'.tasks|
      ensures SettledOn(s'.tasks[s'.history[i].task], s'.history[i].binding, s'.history[i].resolver)
    {
      var e := s'.history[i];
      if i == |s.history| {
        DecisionSettles(s, t, bindOk, stopOk);
      } else if e.task == t {
        SettledStays(s, t, bindOk, stopOk, e.binding, e.resolver);
      }
    }
  }

  lemma {:induction false} EveryRunDecidesOnce(actions: seq<Action>)
    ensures DecidesOnce(Exec(actions))
  {
    hide RunTask, SettledOn;
    if actions != [] {
      var s, a := Exec(actions[..|actions| - 1]), actions[|actions| - 1];
      EveryRunDecidesOnce(actions[..|actions| - 1]);
      if a.Run? && a.task < |s.tasks| {
        RunDecidesOnce(s, a.task, a.bindOk, a.stopOk);
      }
    }
  }

  ghost predicate DecidesAt(h: seq<Event>, i: nat, t: nat) {
    i < |h| && h[i].Decided? && h[i].task == t
  }

  ghost predicate Succeeded(s: State, t: nat, b: Binding, r: Resolver) {
    t < |s.tasks| && s.tasks[t] == UpsertDone(b, Registered(r))
  }

  /** Every decision of a successful task is for what it returns. */
  lemma SuccessDecidesOnly(actions: seq<Action>, t: nat, b: Binding, r: Resolver, i: nat)
    requires Succeeded(Exec(actions), t, b, r)
    requires DecidesAt(Exec(actions).history, i, t)
    ensures Exec(actions).history[i] == Decided(t, b, r)
  {
    EveryRunDecidesOnce(actions);
    assert SettledOn(Exec(actions).tasks[t], Exec(actions).history[i].binding, Exec(actions).history[i].resolver);
  }

  /** Two successful upserts of one binding, `t` deciding first, return the same resolver if the
      binding is not removed and the map not drained between their decision points; each of them
      has a decision point. */
  lemma SuccessesAgree(actions: seq<Action>, t: nat, u: nat, b: Binding, r: Resolver, q: Resolver)
    requires Succeeded(Exec(actions), t, b, r) && Succeeded(Exec(actions), u, b, q)
    ensures var h := Exec(actions).history;
            && DecidedBy(h, t, b, r) && DecidedBy(h, u, b, q)
            && forall i, j :: DecidesAt(h, i, t) && DecidesAt(h, j, u) && i < j && Undisturbed(h, i, j, b) ==> r == q
  {
    hide Exec, Succeeded;
    var h := Exec(actions).history;
    assert DecidedBy(h, t, b, r) && DecidedBy(h, u, b, q) by {
      SuccessHasDecision(actions, t, b, r);
      SuccessHasDecision(actions, u, b, q);
    }
    forall i, j | DecidesAt(h, i, t) && DecidesAt(h, j, u) && i < j && Undisturbed(h, i, j, b)
      ensures r == q
    {
      SuccessDecidesOnly(actions, t, b, r, i);
      SuccessDecidesOnly(actions, u, b, q, j);
      UpsertsAgree(actions, i, j, b);
    }
  }

  lemma SuccessHasDecision(actions: seq<Action>, t: nat, b: Binding, r: Resolver)
    requires Succeeded(Exec(actions), t, b, r)
    ensures DecidedBy(Exec(actions).history, t, b, r)
  {
    SuccessWasDecided(actions, t);
  }

  /** In particular, in a run without removals of the binding and without drains. */
  lemma SuccessesAgreeUndisturbed(actions: seq<Action>, t: nat, u: nat, b: Binding, r: Resolver, q: Resolver)
    requires Succeeded(Exec(actions), t, b, r) && Succeeded(Exec(actions), u, b, q)
    requires forall e :: e in Exec(actions).history ==> !e.Drained? && e != Removed(b)
    ensures r == q
  {
    hide Exec, Succeeded;
    var h := Exec(actions).history;
    SuccessesAgree(actions, t, u, b, r, q);
    SuccessesAgree(actions, u, t, b, q, r);
    var i :| 0 <= i < |h| && h[i] == Decided(t, b, r);
    var j :| 0 <= j < |h| && h[j] == Decided(u, b, q);
    assert forall k :: 0 <= k < |h| ==> h[k] in h;
    assert DecidesAt(h, i, t) && DecidesAt(h, j, u);
    assert Undisturbed(h, i, j, b) && Undisturbed(h, j, i, b);
  }
}
