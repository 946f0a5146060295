/** The merged lookup stream: resolvers complete and their streams deliver in any order; a record
    is yielded the first time it is seen. */
module LookupStream {
  import opened Bytes
  import opened Grouping
  import opened Picking

  /** What a resolver will do: fail, or deliver a finite stream of records. */
  datatype Source<R> = Fails | Delivers(records: seq<R>)

  datatype Status<R> = Pending | Active(rest: seq<R>) | Finished

  /** Waiting for the first success; streaming; over; or failed for good. */
  datatype Phase = Waiting | Streaming | Ended | Failed

  /** `log` are all deliveries so far, with the resolver each came from. */
  datatype State<R> = State(
    status: seq<Status<R>>, seen: set<R>, log: seq<(nat, R)>, yielded: seq<R>, errors: seq<nat>, phase: Phase)

  function Initial<R>(sources: seq<Source<R>>): State<R> {
    State(seq(|sources|, i => Pending), {}, [], [], [], Waiting)
  }

  /** What the scheduler may let happen next. */
  datatype Action =
    | Complete(index: nat)
    | Deliver(index: nat)
    | Exhaust(index: nat)
    | Close

  predicate NonePending<R>(s: State<R>) {
    forall i :: 0 <= i < |s.status| ==> !s.status[i].Pending?
  }

  predicate NoneActive<R>(s: State<R>) {
    forall i :: 0 <= i < |s.status| ==> !s.status[i].Active?
  }

  predicate Enabled<R>(s: State<R>, a: Action) {
    match a
    case Complete(i) => (s.phase == Waiting || s.phase == Streaming) && i < |s.status| && s.status[i].Pending?
    case Deliver(i) => s.phase == Streaming && i < |s.status| && s.status[i].Active? && s.status[i].rest != []
    case Exhaust(i) => s.phase == Streaming && i < |s.status| && s.status[i].Active? && s.status[i].rest == []
    case Close =>
      || (s.phase == Waiting && NonePending(s))
      || (s.phase == Streaming && NonePending(s) && NoneActive(s))
  }

  function Step<R>(sources: seq<Source<R>>, s: State<R>, a: Action): State<R>
    requires |s.status| == |sources| && Enabled(s, a)
  {
    match a
    case Complete(i) =>
      if sources[i].Delivers? then s.(status := s.status[i := Active(sources[i].records)], phase := Streaming)
      else
        var done := s.(status := s.status[i := Finished]);
        if s.phase == Waiting then done.(errors := s.errors + [i]) else done
    case Deliver(i) =>
      var r := s.status[i].rest[0];
      var taken := s.(status := s.status[i := Active(s.status[i].rest[1..])], log := s.log + [(i, r)]);
      if r in s.seen then taken else taken.(seen := s.seen + {r}, yielded := s.yielded + [r])
    case Exhaust(i) => s.(status := s.status[i := Finished])
    case Close => s.(phase := if s.phase == Waiting then Failed else Ended)
  }

  // ------------------------------------------------------------------------------------------
  // The invariant of every interleaving

  /** Each record of a source that has completed was yielded or is still to come. */
  ghost predicate Accounted<R>(sources: seq<Source<R>>, s: State<R>, i: nat)
    requires |s.status| == |sources| && i < |sources|
  {
    match s.status[i]
    case Pending => true
    case Active(rest) =>
      && sources[i].Delivers?
      && (forall r :: r in rest ==> r in sources[i].records)
      && (forall r :: r in sources[i].records ==> r in s.seen || r in rest)
    case Finished => sources[i].Delivers? ==> forall r :: r in sources[i].records ==> r in s.seen
  }

  ghost predicate FromSources<R>(sources: seq<Source<R>>, r: R) {
    exists i :: 0 <= i < |sources| && sources[i].Delivers? && r in sources[i].records
  }

  ghost predicate Started<R>(sources: seq<Source<R>>, s: State<R>)
    requires |s.status| == |sources|
  {
    exists i :: 0 <= i < |sources| && sources[i].Delivers? && !s.status[i].Pending?
  }

  ghost predicate Failing<R>(sources: seq<Source<R>>, s: State<R>)
    requires |s.status| == |sources|
  {
    && (forall i :: 0 <= i < |sources| && !s.status[i].Pending? ==> sources[i].Fails?)
    && (forall i :: i in s.errors <==> 0 <= i < |sources| && !s.status[i].Pending?)
    && s.seen == {}
  }

  ghost predicate Inv<R>(sources: seq<Source<R>>, s: State<R>) {
    && |s.status| == |sources|
    && (forall i :: 0 <= i < |sources| ==> Accounted(sources, s, i))
    && Distinct(s.yielded)
    && (forall r :: r in s.yielded ==> r in s.seen) && (forall r :: r in s.seen ==> r in s.yielded)
    && (forall r :: r in s.seen ==> FromSources(sources, r))
    && Distinct(s.errors)
    && (s.phase == Waiting || s.phase == Failed ==> Failing(sources, s))
    && (s.phase == Streaming || s.phase == Ended ==> Started(sources, s))
    && (s.phase == Failed ==> NonePending(s))
    && (s.phase == Ended ==> NonePending(s) && NoneActive(s))
  }

  lemma InitialInv<R>(sources: seq<Source<R>>)
    ensures Inv(sources, Initial(sources))
  {
  }

  lemma CompleteKeepsInv<R>(sources: seq<Source<R>>, s: State<R>, i: nat)
    requires Inv(sources, s) && Enabled(s, Complete(i))
    ensures Inv(sources, Step(sources, s, Complete(i)))
  {
    var s' := Step(sources, s, Complete(i));
    forall j | 0 <= j < |sources|
      ensures Accounted(sources, s', j)
    {
      assert Accounted(sources, s, j);
    }
    if s'.phase == Streaming {
      if sources[i].Delivers? {
        assert !s'.status[i].Pending?;
      } else {
        var k :| 0 <= k < |sources| && sources[k].Delivers? && !s.status[k].Pending?;
        assert !s'.status[k].Pending?;
      }
    } else {
      assert i !in s.errors;
    }
  }

  lemma DeliverKeepsInv<R>(sources: seq<Source<R>>, s: State<R>, i: nat)
    requires Inv(sources, s) && Enabled(s, Deliver(i))
    ensures Inv(sources, Step(sources, s, Deliver(i)))
  {
    var s' := Step(sources, s, Deliver(i));
    var rest := s.status[i].rest;
    assert rest == [rest[0]] + rest[1..];
    assert Accounted(sources, s, i);
    assert FromSources(sources, rest[0]);
    forall j | 0 <= j < |sources|
      ensures Accounted(sources, s', j)
    {
      assert Accounted(sources, s, j);
    }
    StillStarted(sources, s, s', i);
  }

  lemma ExhaustKeepsInv<R>(sources: seq<Source<R>>, s: State<R>, i: nat)
    requires Inv(sources, s) && Enabled(s, Exhaust(i))
    ensures Inv(sources, Step(sources, s, Exhaust(i)))
  {
    var s' := Step(sources, s, Exhaust(i));
    forall j | 0 <= j < |sources|
      ensures Accounted(sources, s', j)
    {
      assert Accounted(sources, s, j);
    }
    StillStarted(sources, s, s', i);
  }

  lemma StillStarted<R>(sources: seq<Source<R>>, s: State<R>, s': State<R>, i: nat)
    requires |s.status| == |s'.status| == |sources| && i < |sources| && Started(sources, s)
    requires !s'.status[i].Pending? && forall j :: 0 <= j < |sources| && j != i ==> s'.status[j] == s.status[j]
    ensures Started(sources, s')
  {
    var k :| 0 <= k < |sources| && sources[k].Delivers? && !s.status[k].Pending?;
    assert !s'.status[k].Pending?;
  }

  lemma CloseKeepsInv<R>(sources: seq<Source<R>>, s: State<R>)
    requires Inv(sources, s) && Enabled(s, Close)
    ensures Inv(sources, Step(sources, s, Close))
  {
    var s' := Step(sources, s, Close);
    forall j | 0 <= j < |sources|
      ensures Accounted(sources, s', j)
    {
      assert Accounted(sources, s, j);
    }
    if s.phase == Streaming {
      var k :| 0 <= k < |sources| && sources[k].Delivers? && !s.status[k].Pending?;
      assert !s'.status[k].Pending?;
    }
  }

  lemma StepKeepsInv<R>(sources: seq<Source<R>>, s: State<R>, a: Action)
    requires Inv(sources, s) && Enabled(s, a)
    ensures Inv(sources, Step(sources, s, a))
  {
    hide Inv, Step;
    StatusMatches(sources, s);
    match a
    case Complete(i) => CompleteKeepsInv(sources, s, i);
    case Deliver(i) => DeliverKeepsInv(sources, s, i);
    case Exhaust(i) => ExhaustKeepsInv(sources, s, i);
    case Close => CloseKeepsInv(sources, s);
  }

  lemma StatusMatches<R>(sources: seq<Source<R>>, s: State<R>)
    requires Inv(sources, s)
    ensures |s.status| == |sources|
  {
  }

  // ------------------------------------------------------------------------------------------
  // Progress

  function Weight<R>(source: Source<R>, status: Status<R>): nat {
    match status
    case Pending => if source.Delivers? then 2 + |source.records| else 1
    case Active(rest) => 1 + |rest|
    case Finished => 0
  }

  function Work<R>(sources: seq<Source<R>>, status: seq<Status<R>>): nat
    requires |sources| == |status|
  {
    if sources == [] then 0 else Weight(sources[0], status[0]) + Work(sources[1..], status[1..])
  }

  lemma {:induction false} WorkUpdate<R>(sources: seq<Source<R>>, status: seq<Status<R>>, i: nat, x: Status<R>)
    requires i < |sources| == |status|
    ensures Work(sources, status[i := x]) + Weight(sources[i], status[i]) ==
            Work(sources, status) + Weight(sources[i], x)
  {
    if i == 0 {
      assert status[0 := x][1..] == status[1..];
    } else {
      WorkUpdate(sources[1..], status[1..], i - 1, x);
      assert status[i := x][1..] == status[1..][i - 1 := x];
    }
  }

  function Measure<R>(sources: seq<Source<R>>, s: State<R>): nat
    requires |s.status| == |sources|
  {
    Work(sources, s.status) + if s.phase == Waiting || s.phase == Streaming then 1 else 0
  }

  /** Every step brings the stream nearer to its end. */
  lemma StepProgress<R>(sources: seq<Source<R>>, s: State<R>, a: Action)
    requires |s.status| == |sources| && Enabled(s, a)
    ensures Measure(sources, Step(sources, s, a)) < Measure(sources, s)
  {
    if a.Complete? || a.Deliver? || a.Exhaust? {
      WorkUpdate(sources, s.status, a.index, Step(sources, s, a).status[a.index]);
    }
  }

  /** And while it is not over, some step can happen. */
  lemma NotStuck<R>(sources: seq<Source<R>>, s: State<R>)
    requires Inv(sources, s) && (s.phase == Waiting || s.phase == Streaming)
    ensures exists a :: Enabled(s, a)
  {
    if !NonePending(s) {
      var i :| 0 <= i < |s.status| && s.status[i].Pending?;
      assert Enabled(s, Complete(i));
    } else if s.phase == Streaming && !NoneActive(s) {
      var i :| 0 <= i < |s.status| && s.status[i].Active?;
      assert Enabled(s, Deliver(i)) || Enabled(s, Exhaust(i));
    } else {
      assert Enabled(s, Close);
    }
  }

  // ------------------------------------------------------------------------------------------
  // Runs

  /** The state after these actions, if each of them was possible. */
  function Exec<R>(sources: seq<Source<R>>, actions: seq<Action>): (r: Option<State<R>>)
    ensures r.Some? ==> |r.value.status| == |sources|
  {
    if actions == [] then Some(Initial(sources))
    else
      var before, last := Exec(sources, actions[..|actions| - 1]), actions[|actions| - 1];
      if before.Some? && Enabled(before.value, last) then Some(Step(sources, before.value, last)) else None
  }

  lemma {:induction false} RunInv<R>(sources: seq<Source<R>>, actions: seq<Action>)
    requires Exec(sources, actions).Some?
    ensures Inv(sources, Exec(sources, actions).value)
    ensures |actions| + Measure(sources, Exec(sources, actions).value) <= Measure(sources, Initial(sources))
    decreases |actions|
  {
    hide Inv, Enabled, Step, Measure;
    if actions == [] {
      InitialInv(sources);
    } else {
      var init, last := actions[..|actions| - 1], actions[|actions| - 1];
      var before := Exec(sources, init).value;
      RunInv(sources, init);
      StepKeepsInv(sources, before, last);
      StepProgress(sources, before, last);
    }
  }

  /** Under every interleaving: nothing is yielded twice; every run is at most as long as the
      work there is, and goes on until it is over; a stream that ends has yielded exactly the
      records of all resolvers that succeeded; a lookup fails only if all of them fail, and then
      reports each once. */
  lemma EveryInterleaving<R>(sources: seq<Source<R>>, actions: seq<Action>, s: State<R>)
    requires Exec(sources, actions) == Some(s)
    ensures Distinct(s.yielded)
    ensures |actions| <= Measure(sources, Initial(sources))
    ensures s.phase == Waiting || s.phase == Streaming ==> exists a :: Enabled(s, a)
    ensures s.phase == Ended ==> forall r :: r in s.yielded <==> FromSources(sources, r)
    ensures s.phase == Failed ==>
              && (forall i :: 0 <= i < |sources| ==> sources[i].Fails?)
              && Distinct(s.errors) && forall i :: i in s.errors <==> 0 <= i < |sources|
  {
    RunInv(sources, actions);
    if s.phase == Waiting || s.phase == Streaming {
      NotStuck(sources, s);
    }
    if s.phase == Ended {
      EndedIsComplete(sources, s);
    }
  }

  // ------------------------------------------------------------------------------------------
  // The order of what is yielded

  /** The deliveries of one resolver, in order. */
  function From<R>(log: seq<(nat, R)>, i: nat): seq<R> {
    if log == [] then []
    else
      var last := log[|log| - 1];
      From(log[..|log| - 1], i) + if last.0 == i then [last.1] else []
  }

  /** Each record of a log at its first appearance. */
  function Firsts<R(==)>(log: seq<(nat, R)>): seq<R> {
    if log == [] then []
    else
      var first, last := Firsts(log[..|log| - 1]), log[|log| - 1].1;
      if last in first then first else first + [last]
  }

  /** What resolver `i` has still to deliver. */
  function Rest<R>(sources: seq<Source<R>>, s: State<R>, i: nat): seq<R>
    requires |s.status| == |sources| && i < |sources|
  {
    match s.status[i]
    case Pending => if sources[i].Delivers? then sources[i].records else []
    case Active(rest) => rest
    case Finished => []
  }

  /** Each resolver is read in its own order, and what is yielded are the first appearances. */
  ghost predicate InOrder<R>(sources: seq<Source<R>>, s: State<R>) {
    && |s.status| == |sources|
    && (forall i :: 0 <= i < |sources| ==>
          From(s.log, i) + Rest(sources, s, i) == if sources[i].Delivers? then sources[i].records else [])
    && s.yielded == Firsts(s.log)
    && (forall r :: r in s.seen ==> r in s.yielded) && (forall r :: r in s.yielded ==> r in s.seen)
  }

  lemma FromLast<R>(log: seq<(nat, R)>, j: nat, r: R, i: nat)
    ensures From(log + [(j, r)], i) == From(log, i) + if j == i then [r] else []
    ensures Firsts(log + [(j, r)]) == if r in Firsts(log) then Firsts(log) else Firsts(log) + [r]
  {
    assert (log + [(j, r)])[..|log|] == log;
  }

  lemma DeliverInOrder<R>(sources: seq<Source<R>>, s: State<R>, j: nat)
    requires InOrder(sources, s) && Enabled(s, Deliver(j))
    ensures InOrder(sources, Step(sources, s, Deliver(j)))
  {
    hide From, Firsts, Rest;
    var s', rest := Step(sources, s, Deliver(j)), s.status[j].rest;
    forall i | 0 <= i < |sources|
      ensures From(s'.log, i) + Rest(sources, s', i) == From(s.log, i) + Rest(sources, s, i)
    {
      DeliverShifts(sources, s, j, i);
    }
    FromLast(s.log, j, rest[0], j);
  }

  /** A delivery moves a record from what is still to come into the log. */
  lemma DeliverShifts<R>(sources: seq<Source<R>>, s: State<R>, j: nat, i: nat)
    requires |s.status| == |sources| && i < |sources| && Enabled(s, Deliver(j))
    ensures var s' := Step(sources, s, Deliver(j));
            From(s'.log, i) + Rest(sources, s', i) == From(s.log, i) + Rest(sources, s, i)
  {
    hide From, Firsts;
    var rest := s.status[j].rest;
    FromLast(s.log, j, rest[0], i);
    if i == j {
      assert rest == [rest[0]] + rest[1..];
      assert From(s.log, i) + [rest[0]] + rest[1..] == From(s.log, i) + ([rest[0]] + rest[1..]);
    } else {
      assert From(s.log, i) + [] == From(s.log, i);
    }
  }

  lemma OtherInOrder<R>(sources: seq<Source<R>>, s: State<R>, a: Action)
    requires InOrder(sources, s) && Enabled(s, a) && !a.Deliver?
    requires forall i :: 0 <= i < |sources| && s.status[i].Active? ==> sources[i].Delivers?
    ensures InOrder(sources, Step(sources, s, a))
  {
    hide From, Firsts, Rest, Step;
    OnlyDeliveriesLog(sources, s, a);
    forall i | 0 <= i < |sources|
      ensures Rest(sources, Step(sources, s, a), i) == Rest(sources, s, i)
    {
      RestStays(sources, s, a, i);
    }
  }

  lemma OnlyDeliveriesLog<R>(sources: seq<Source<R>>, s: State<R>, a: Action)
    requires |s.status| == |sources| && Enabled(s, a) && !a.Deliver?
    ensures var s' := Step(sources, s, a);
            |s'.status| == |sources| && s'.log == s.log && s'.yielded == s.yielded && s'.seen == s.seen
  {
    hide NonePending, NoneActive;
  }

  lemma RestStays<R>(sources: seq<Source<R>>, s: State<R>, a: Action, i: nat)
    requires |s.status| == |sources| && Enabled(s, a) && !a.Deliver? && i < |sources|
    requires s.status[i].Active? ==> sources[i].Delivers?
    ensures |Step(sources, s, a).status| == |sources|
    ensures Rest(sources, Step(sources, s, a), i) == Rest(sources, s, i)
  {
    hide NonePending, NoneActive;
  }

  /** Under every interleaving, each resolver is read in its own order, a stream that ended has
      read all that succeeded to their end, and each record is yielded at its first appearance. */
  lemma {:induction false} EveryRunInOrder<R>(sources: seq<Source<R>>, actions: seq<Action>)
    requires Exec(sources, actions).Some?
    ensures var s := Exec(sources, actions).value;
            && (forall i :: 0 <= i < |sources| && sources[i].Delivers? ==>
                  From(s.log, i) + Rest(sources, s, i) == sources[i].records)
            && (s.phase == Ended ==>
                  forall i :: 0 <= i < |sources| && sources[i].Delivers? ==> From(s.log, i) == sources[i].records)
            && s.yielded == Firsts(s.log)
    ensures InOrder(sources, Exec(sources, actions).value)
    decreases |actions|
  {
    hide From, Firsts, Step, Inv, Enabled, Rest;
    RunInv(sources, actions);
    EndedRestsNothing(sources, Exec(sources, actions).value);
    if actions == [] {
      InitialInOrder(sources);
    } else {
      var init, last := actions[..|actions| - 1], actions[|actions| - 1];
      var before := Exec(sources, init).value;
      EveryRunInOrder(sources, init);
      RunInv(sources, init);
      ActiveDelivers(sources, before);
      if last.Deliver? {
        DeliverInOrder(sources, before, last.index);
      } else {
        OtherInOrder(sources, before, last);
      }
    }
    assert forall i :: 0 <= i < |sources| ==> From(Exec(sources, actions).value.log, i) + [] ==
                                              From(Exec(sources, actions).value.log, i);
  }

  lemma InitialInOrder<R>(sources: seq<Source<R>>)
    ensures InOrder(sources, Initial(sources))
  {
    forall i | 0 <= i < |sources|
      ensures From<R>([], i) + Rest(sources, Initial(sources), i) == Rest(sources, Initial(sources), i)
    {
    }
  }

  lemma ActiveDelivers<R>(sources: seq<Source<R>>, s: State<R>)
    requires Inv(sources, s)
    ensures forall i :: 0 <= i < |sources| && s.status[i].Active? ==> sources[i].Delivers?
  {
    forall i | 0 <= i < |sources| && s.status[i].Active?
      ensures sources[i].Delivers?
    {
      assert Accounted(sources, s, i);
    }
  }

  lemma EndedRestsNothing<R>(sources: seq<Source<R>>, s: State<R>)
    requires Inv(sources, s)
    ensures s.phase == Ended ==> forall i :: 0 <= i < |sources| ==> Rest(sources, s, i) == []
  {
  }

  ghost predicate FirstTime<R>(log: seq<(nat, R)>, i: int) {
    0 <= i < |log| && forall j :: 0 <= j < i ==> log[j].1 != log[i].1
  }

  lemma {:induction false} FirstsHave<R>(log: seq<(nat, R)>, r: R)
    ensures r in Firsts(log) <==> exists i :: 0 <= i < |log| && log[i].1 == r
  {
    if log != [] {
      var init := log[..|log| - 1];
      FirstsHave(init, r);
      assert forall i :: 0 <= i < |init| ==> init[i] == log[i];
    }
  }

  lemma FirstsLast<R>(log: seq<(nat, R)>, n: nat)
    requires n < |log|
    ensures Firsts(log[..n + 1]) == if FirstTime(log, n) then Firsts(log[..n]) + [log[n].1] else Firsts(log[..n])
  {
    assert log[..n + 1][..n] == log[..n];
    FirstsHave(log[..n], log[n].1);
    assert forall j :: 0 <= j < n ==> log[..n][j] == log[j];
  }

  /** Each record that appears for the first time, in its place. */
  ghost function FirstTimes<R>(log: seq<(nat, R)>): (vals: seq<Option<R>>)
    ensures |vals| == |log|
  {
    seq(|log|, i requires 0 <= i < |log| => if FirstTime(log, i) then Some(log[i].1) else None)
  }

  lemma {:induction false} FirstsAreSomes<R>(log: seq<(nat, R)>, n: nat)
    requires n <= |log|
    ensures Firsts(log[..n]) == Somes(FirstTimes(log), n)
  {
    if n > 0 {
      hide Firsts, FirstTime;
      FirstsAreSomes(log, n - 1);
      FirstsLast(log, n - 1);
    }
  }

  /** What the first appearances are. */
  lemma FirstsAt<R>(log: seq<(nat, R)>) returns (at: seq<nat>)
    ensures Stand(FirstTimes(log), |log|, at, Firsts(log))
  {
    hide FirstTimes, Firsts, Stand;
    at := SomesAt(FirstTimes(log), |log|);
    FirstsAreSomes(log, |log|);
    assert log[..|log|] == log;
  }

  // ------------------------------------------------------------------------------------------
  // The loop of the program

  method PickAction<R>(s: State<R>) returns (a: Action)
    requires s.phase == Streaming
    ensures Enabled(s, a)
  {
    if i :| 0 <= i < |s.status| && s.status[i].Pending? {
      if j :| 0 <= j < |s.status| && s.status[j].Active? {
        if * {
          return if s.status[j].rest == [] then Exhaust(j) else Deliver(j);
        }
      }
      return Complete(i);
    }
    if j :| 0 <= j < |s.status| && s.status[j].Active? {
      return if s.status[j].rest == [] then Exhaust(j) else Deliver(j);
    }
    return Close;
  }

  /** Waits for the first success: it fails exactly when every resolver fails. */
  method Lookup<R>(sources: seq<Source<R>>) returns (s: State<R>)
    ensures Inv(sources, s) && s.yielded == []
    ensures s.phase == Failed <==> forall i :: 0 <= i < |sources| ==> sources[i].Fails?
    ensures s.phase == Failed || s.phase == Streaming
  {
    s := Initial(sources);
    InitialInv(sources);
    while s.phase == Waiting
      invariant Inv(sources, s) && s.yielded == [] && (s.phase == Waiting || s.phase == Streaming || s.phase == Failed)
      decreases Measure(sources, s)
    {
      var a := Close;
      if i :| 0 <= i < |s.status| && s.status[i].Pending? {
        a := Complete(i);
      }
      StepKeepsInv(sources, s, a);
      StepProgress(sources, s, a);
      s := Step(sources, s, a);
    }
  }

  /** The next record that was not seen before, or nothing once the stream is over. */
  method NextUniqueRecord<R(==)>(sources: seq<Source<R>>, start: State<R>)
    returns (record: Option<R>, s: State<R>)
    requires Inv(sources, start) && start.phase == Streaming
    ensures Inv(sources, s)
    ensures record.Some? ==>
              && s.phase == Streaming && record.value !in start.seen
              && s.yielded == start.yielded + [record.value]
              && Measure(sources, s) < Measure(sources, start)
    ensures record.None? ==> s.phase == Ended && s.yielded == start.yielded
  {
    s := start;
    while true
      invariant Inv(sources, s) && s.phase == Streaming
      invariant s.yielded == start.yielded && s.seen == start.seen
      invariant Measure(sources, s) <= Measure(sources, start)
      decreases Measure(sources, s)
    {
      var a := PickAction(s);
      StepKeepsInv(sources, s, a);
      StepProgress(sources, s, a);
      var s' := Step(sources, s, a);
      if a.Close? {
        return None, s';
      }
      if a.Deliver? && s.status[a.index].rest[0] !in s.seen {
        return Some(s.status[a.index].rest[0]), s';
      }
      s := s';
    }
  }

  /** A consumer that drains the stream gets every record of the resolvers that succeeded, once. */
  method Drain<R(==)>(sources: seq<Source<R>>, start: State<R>) returns (records: seq<R>)
    requires Inv(sources, start) && start.phase == Streaming && start.yielded == []
    ensures Distinct(records)
    ensures forall r :: r in records <==> FromSources(sources, r)
  {
    records := [];
    var s := start;
    while true
      invariant Inv(sources, s) && s.phase == Streaming && records == s.yielded
      decreases Measure(sources, s)
    {
      var record;
      record, s := NextUniqueRecord(sources, s);
      if record.None? {
        EndedIsComplete(sources, s);
        return;
      }
      records := records + [record.value];
    }
  }

  lemma EndedIsComplete<R>(sources: seq<Source<R>>, s: State<R>)
    requires Inv(sources, s) && s.phase == Ended
    ensures forall r :: r in s.yielded <==> FromSources(sources, r)
  {
    forall r
      ensures r in s.yielded <==> FromSources(sources, r)
    {
      if FromSources(sources, r) {
        var i :| 0 <= i < |sources| && sources[i].Delivers? && r in sources[i].records;
        assert Accounted(sources, s, i);
      }
    }
  }
}
