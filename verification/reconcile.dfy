/** Reconciliation of the resolver set with the caller's desired bindings. The caller serialises
    it, so each call runs to its end before the next. */
module Reconcile {
  import opened Bytes
  import opened ResolverSet

  datatype ReconcileError = BindError(binding: Binding, source: UpsertError) | RemoveError(binding: Binding)

  ghost predicate OncePerBinding(errors: seq<ReconcileError>) {
    forall i, j :: 0 <= i < j < |errors| ==>
                     errors[i].binding != errors[j].binding || errors[i].BindError? != errors[j].BindError?
  }

  function BindErrors(errors: seq<ReconcileError>): set<Binding> {
    set i | 0 <= i < |errors| && errors[i].BindError? :: errors[i].binding
  }

  lemma BindErrorsAppend(errors: seq<ReconcileError>, e: ReconcileError)
    ensures BindErrors(errors + [e]) == BindErrors(errors) + if e.BindError? then {e.binding} else {}
  {
    var all := errors + [e];
    assert forall i :: 0 <= i < |errors| ==> all[i] == errors[i];
    assert all[|errors|] == e;
    forall b
      ensures b in BindErrors(all) <==> b in BindErrors(errors) || (e.BindError? && b == e.binding)
    {
      if b in BindErrors(errors) {
        var i :| 0 <= i < |errors| && errors[i].BindError? && errors[i].binding == b;
        assert all[i].BindError? && all[i].binding == b;
      }
    }
  }

  /** What one undisturbed upsert does to the map; `next` numbers the next instance. */
  ghost predicate Upserts(
    closed: bool, before: map<Binding, Resolver>, next: nat, b: Binding, bindOk: bool,
    r: UpsertResult, after: map<Binding, Resolver>, next': nat)
  {
    if !closed && b !in before && bindOk then
      r == Registered(Resolver(next, b)) && after == before[b := Resolver(next, b)] && next' == next + 1
    else
      && after == before && next' == next
      && r == if closed then Refused(Closed) else if b in before then Registered(before[b]) else Refused(BindFailed)
  }

  /** What one undisturbed removal does. */
  ghost predicate Removes(
    before: map<Binding, Resolver>, b: Binding, stopOk: bool, r: RemoveResult, after: map<Binding, Resolver>)
  {
    && after == before - {b}
    && r == if b !in before then NotThere else if stopOk then RemovedOk else StopFailed
  }

  class MdnsResolverSet {
    var resolvers: map<Binding, Resolver>
    var closed: bool
    var nextId: nat

    ghost predicate Valid()
      reads this
    {
      forall b :: b in resolvers ==> resolvers[b].binding == b && resolvers[b].id < nextId
    }

    constructor ()
      ensures Valid() && resolvers == map[] && !closed
    {
      resolvers, closed, nextId := map[], false, 0;
    }

    method Upsert(b: Binding, bindOk: bool) returns (r: UpsertResult)
      requires Valid()
      modifies this
      ensures Valid() && closed == old(closed)
      ensures Upserts(closed, old(resolvers), old(nextId), b, bindOk, r, resolvers, nextId)
    {
      if closed {
        return Refused(Closed);
      }
      if b in resolvers {
        return Registered(resolvers[b]);
      }
      if !bindOk {
        return Refused(BindFailed);
      }
      var candidate := Resolver(nextId, b);
      nextId := nextId + 1;
      resolvers := resolvers[b := candidate];
      return Registered(candidate);
    }

    /** The entry leaves the map before its shutdown runs, so also if that fails. */
    method Remove(b: Binding, stopOk: bool) returns (r: RemoveResult)
      requires Valid()
      modifies this
      ensures Valid() && closed == old(closed) && nextId == old(nextId)
      ensures Removes(old(resolvers), b, stopOk, r, resolvers)
    {
      if b !in resolvers {
        return NotThere;
      }
      resolvers := resolvers - {b};
      r := if stopOk then RemovedOk else StopFailed;
    }

    /** Closes the set, takes every entry out of the map, and then stops all of them: also the
        others if one fails. The first failure is the result. */
    method Shutdown(stopOk: Binding -> bool) returns (failed: Option<Binding>, stopped: set<Resolver>)
      requires Valid()
      modifies this
      ensures Valid() && closed && resolvers == map[] && nextId == old(nextId)
      ensures stopped == old(resolvers).Values
      ensures failed.None? <==> forall b :: b in old(resolvers) ==> stopOk(b)
      ensures failed.Some? ==> failed.value in old(resolvers) && !stopOk(failed.value)
    {
      closed := true;
      var todo := resolvers.Values;
      ghost var all := todo;
      resolvers := map[];
      failed, stopped := None, {};
      while todo != {}
        invariant resolvers == map[] && closed && nextId == old(nextId)
        invariant todo + stopped == all && todo !! stopped
        invariant failed.None? <==> forall r :: r in stopped ==> stopOk(r.binding)
        invariant failed.Some? ==> failed.value in old(resolvers) && !stopOk(failed.value)
        decreases todo
      {
        var instance :| instance in todo;
        assert exists b :: b in old(resolvers) && old(resolvers)[b] == instance;
        todo, stopped := todo - {instance}, stopped + {instance};
        if !stopOk(instance.binding) && failed.None? {
          failed := Some(instance.binding);
        }
      }
      assert forall b :: b in old(resolvers) ==> old(resolvers)[b] in stopped && old(resolvers)[b].binding == b;
      assert forall r :: r in stopped ==> r.binding in old(resolvers);
    }

    method RetireObsolete(desired: set<Binding>, stopOk: Binding -> bool) returns (errors: seq<ReconcileError>)
      requires Valid()
      modifies this
      ensures Valid() && closed == old(closed) && nextId == old(nextId)
      ensures resolvers == map b | b in old(resolvers) && b in desired :: old(resolvers)[b]
      ensures OncePerBinding(errors) && BindErrors(errors) == {}
      ensures forall b :: RemoveError(b) in errors <==> b in old(resolvers) && b !in desired && !stopOk(b)
    {
      errors := [];
      var todo := resolvers.Values;
      while todo != {}
        invariant Valid() && closed == old(closed) && nextId == old(nextId)
        invariant todo <= old(resolvers).Values
        invariant forall b :: b in resolvers <==> b in old(resolvers) && (b in desired || old(resolvers)[b] in todo)
        invariant forall b :: b in resolvers ==> resolvers[b] == old(resolvers)[b]
        invariant forall i :: 0 <= i < |errors| ==> errors[i].RemoveError?
        invariant OncePerBinding(errors)
        invariant forall b :: RemoveError(b) in errors <==>
                              b in old(resolvers) && b !in desired && old(resolvers)[b] !in todo && !stopOk(b)
        decreases todo
      {
        var instance :| instance in todo;
        assert exists b :: b in old(resolvers) && old(resolvers)[b] == instance;
        var binding := instance.binding;
        assert binding in old(resolvers) && old(resolvers)[binding] == instance;
        todo := todo - {instance};
        if binding !in desired {
          var r := Remove(binding, stopOk(binding));
          if r == StopFailed {
            errors := errors + [RemoveError(binding)];
          }
        }
      }
    }

    method BindMissing(desired: set<Binding>, bindOk: Binding -> bool, before: seq<ReconcileError>)
      returns (errors: seq<ReconcileError>)
      requires Valid() && resolvers.Keys <= desired
      requires OncePerBinding(before) && BindErrors(before) == {}
      modifies this
      ensures Valid() && closed == old(closed)
      ensures OncePerBinding(errors) && before <= errors
      ensures forall i :: |before| <= i < |errors| ==> errors[i].BindError?
      ensures resolvers.Keys == if closed then old(resolvers).Keys else desired - BindErrors(errors)
      ensures BindErrors(errors) ==
              set b | b in desired && (closed || (b !in old(resolvers) && !bindOk(b)))
      ensures forall b :: b in old(resolvers) ==> b in resolvers && resolvers[b] == old(resolvers)[b]
      ensures forall b :: b in resolvers && b !in old(resolvers) ==> resolvers[b].id >= old(nextId)
    {
      errors := before;
      var todo := desired;
      while todo != {}
        invariant Valid() && closed == old(closed) && todo <= desired && nextId >= old(nextId)
        invariant OncePerBinding(errors) && before <= errors
        invariant forall i :: |before| <= i < |errors| ==> errors[i].BindError?
        invariant BindErrors(errors) ==
                  set b | b in desired && b !in todo && (closed || (b !in old(resolvers) && !bindOk(b)))
        invariant forall b :: b in resolvers <==>
                    b in old(resolvers) || (!closed && b in desired && b !in todo && bindOk(b))
        invariant forall b :: b in old(resolvers) ==> b in resolvers && resolvers[b] == old(resolvers)[b]
        invariant forall b :: b in resolvers && b !in old(resolvers) ==> resolvers[b].id >= old(nextId)
        decreases todo
      {
        var binding :| binding in todo;
        assert binding !in BindErrors(errors);
        todo := todo - {binding};
        var r := Upsert(binding, bindOk(binding));
        if r.Refused? {
          NewBindError(errors, binding, r.error);
          errors := errors + [BindError(binding, r.error)];
        }
      }
    }

    /** On an open set: the registered bindings become the desired ones minus those that failed
        to bind, each reported once; kept instances keep their identity, obsolete ones leave even
        if their shutdown fails, and a set that already matches is left alone. */
    method Reconcile(bindings: seq<Binding>, bindOk: Binding -> bool, stopOk: Binding -> bool)
      returns (errors: seq<ReconcileError>)
      requires Valid()
      modifies this
      ensures Valid() && closed == old(closed)
      ensures OncePerBinding(errors)
      ensures var desired := set b | b in bindings;
              && resolvers.Keys == (if closed then old(resolvers).Keys * desired else desired - BindErrors(errors))
              && BindErrors(errors) == (set b | b in desired && (closed || (b !in old(resolvers) && !bindOk(b))))
              && (forall b :: b in old(resolvers) && b in desired ==>
                    b in resolvers && resolvers[b] == old(resolvers)[b])
              && (forall b :: b in resolvers && b !in old(resolvers) ==> resolvers[b].id >= old(nextId))
              && (forall b :: RemoveError(b) in errors <==> b in old(resolvers) && b !in desired && !stopOk(b))
      ensures !closed && errors == [] ==> resolvers.Keys == set b | b in bindings
      ensures !closed && old(resolvers).Keys == (set b | b in bindings) ==> errors == [] && resolvers == old(resolvers)
    {
      var desired := set b | b in bindings;
      var retired := RetireObsolete(desired, stopOk);
      ghost var kept := resolvers;
      errors := BindMissing(desired, bindOk, retired);
      assert forall i :: 0 <= i < |retired| ==> errors[i] == retired[i];
      assert forall b :: RemoveError(b) in errors <==> RemoveError(b) in retired;
      assert kept.Keys == old(resolvers).Keys * desired;
      SomeError(errors);
    }
  }

  function Repeat(s: State, a: Action, n: nat): State
    decreases n
  {
    if n == 0 then s else Repeat(Step(s, a), a, n - 1)
  }

  /** Task `t` has gone from `s` to its end in `s'`, and nothing else has moved. */
  ghost predicate UpsertRan(s: State, t: nat, b: Binding, bindOk: bool, s': State) {
    && OnlyTask(s, t, s') && s'.closed == s.closed && s'.retired == s.retired
    && s'.tasks[t].UpsertDone? && s'.tasks[t].binding == b
    && Upserts(s.closed, s.resolvers, |s.bound|, b, bindOk, s'.tasks[t].result, s'.resolvers, |s'.bound|)
  }

  lemma {:induction false} DoneStays(s: State, t: nat, bindOk: bool, stopOk: bool, n: nat)
    requires t < |s.tasks| && s.tasks[t].UpsertDone?
    ensures Repeat(s, Run(t, bindOk, stopOk), n) == s
  {
    if n > 0 {
      DoneStays(s, t, bindOk, stopOk, n - 1);
    }
  }

  lemma BindRuns(s: State, t: nat, b: Binding, bindOk: bool, stopOk: bool)
    requires FreshIds(s) && t < |s.tasks| && s.tasks[t] == UpsertBind(b) && !s.closed && b !in s.resolvers
    ensures UpsertRan(s, t, b, bindOk, Repeat(s, Run(t, bindOk, stopOk), 2))
  {
    hide Repeat;
    var a := Run(t, bindOk, stopOk);
    var s1 := Step(s, a);
    RepeatTwice(s, a);
    if bindOk {
      assert Resolver(|s.bound|, b) !in s.bound;
      assert s1 == AfterBind(s, t, b);
      assert Step(s1, a) == AfterDecision(s1, t, Resolver(|s.bound|, b));
    } else {
      assert Step(s1, a) == s1;
    }
  }

  lemma RepeatTwice(s: State, a: Action)
    ensures Repeat(s, a, 2) == Step(Step(s, a), a)
  {
    hide Step;
    assert Repeat(s, a, 2) == Repeat(Step(s, a), a, 1);
    assert Repeat(Step(s, a), a, 1) == Repeat(Step(Step(s, a), a), a, 0);
  }

  lemma RepeatFour(s: State, a: Action)
    ensures Repeat(s, a, 4) == Repeat(Step(Step(s, a), a), a, 2)
  {
    hide Step;
    assert Repeat(s, a, 4) == Repeat(Step(s, a), a, 3);
  }

  /** The atomic steps of an upsert that nothing interrupts add up to the upsert of the set. */
  lemma SerialUpsert(s: State, t: nat, b: Binding, bindOk: bool, stopOk: bool)
    requires FreshIds(s) && t < |s.tasks| && s.tasks[t] == UpsertCheck(b)
    ensures UpsertRan(s, t, b, bindOk, Repeat(s, Run(t, bindOk, stopOk), 4))
  {
    hide Repeat;
    var a := Run(t, bindOk, stopOk);
    var s1 := Step(s, a);
    var s2 := Step(s1, a);
    RepeatFour(s, a);
    if s.closed || b in s.resolvers {
      assert s2.tasks[t].UpsertDone?;
      DoneStays(s2, t, bindOk, stopOk, 2);
    } else {
      assert s2 == s.(tasks := s.tasks[t := UpsertBind(b)]);
      BindRuns(s2, t, b, bindOk, stopOk);
    }
  }

  /** And those of a removal: the instance is handed to its shutdown, also if that fails. */
  lemma SerialRemove(s: State, t: nat, b: Binding, bindOk: bool, stopOk: bool)
    requires t < |s.tasks| && s.tasks[t] == RemoveTake(b)
    ensures var s' := Repeat(s, Run(t, bindOk, stopOk), 2);
            && OnlyTask(s, t, s') && s'.closed == s.closed && s'.bound == s.bound
            && s'.tasks[t].RemoveDone?
            && Removes(s.resolvers, b, stopOk, s'.tasks[t].outcome, s'.resolvers)
            && s'.retired == s.retired + (if b in s.resolvers then {s.resolvers[b]} else {})
  {
    hide Repeat;
    var a := Run(t, bindOk, stopOk);
    RepeatTwice(s, a);
    if b in s.resolvers {
      assert Step(s, a) == AfterTake(s, t, b);
    } else {
      assert Step(s, a) == To(s, t, RemoveDone(NotThere));
    }
  }

  /** And those of a shutdown: the set is closed and empty, and exactly what was in the map is
      handed to its shutdown. */
  lemma SerialShutdown(s: State, t: nat, bindOk: bool, stopOk: bool)
    requires t < |s.tasks| && s.tasks[t] == ShutdownClose
    ensures var s' := Repeat(s, Run(t, bindOk, stopOk), 2);
            && OnlyTask(s, t, s') && s'.tasks[t] == ShutdownDone && s'.bound == s.bound
            && s'.closed && s'.resolvers == map[]
            && s'.retired == s.retired + s.resolvers.Values
  {
    hide Repeat;
    RepeatTwice(s, Run(t, bindOk, stopOk));
    assert Step(s, Run(t, bindOk, stopOk)) == To(s, t, ShutdownDrain).(closed := true);
  }

  /** An upsert that finds itself overtaken when it decides hands its own candidate to its
      shutdown and leaves the map alone; it then reports the closed set, or returns the resolver
      that was registered meanwhile, unless that shutdown fails. */
  lemma OvertakenUpsert(s: State, t: nat, c: Resolver, bindOk: bool, stopOk: bool)
    requires t < |s.tasks| && s.tasks[t] == UpsertDecide(c)
    requires s.closed || c.binding in s.resolvers
    ensures var s' := Repeat(s, Run(t, bindOk, stopOk), 2);
            && OnlyTask(s, t, s') && s'.closed == s.closed && s'.bound == s.bound
            && s'.resolvers == s.resolvers && s'.retired == s.retired + {c}
            && (!stopOk ==> s'.tasks[t] == UpsertDone(c.binding, Refused(BindFailed)))
            && (stopOk && s.closed ==> s'.tasks[t] == UpsertDone(c.binding, Refused(Closed)))
            && (stopOk && !s.closed ==> s'.tasks[t] == UpsertDone(c.binding, Registered(s.resolvers[c.binding])))
  {
    hide Repeat, RunTask;
    var a := Run(t, bindOk, stopOk);
    RepeatTwice(s, a);
    var existing := if s.closed then None else Some(s.resolvers[c.binding]);
    DecideRuns(s, t, c, bindOk, stopOk);
    StopRuns(Step(s, a), t, c.binding, existing, bindOk, stopOk);
  }

  lemma DecideRuns(s: State, t: nat, c: Resolver, bindOk: bool, stopOk: bool)
    requires t < |s.tasks| && s.tasks[t] == UpsertDecide(c)
    requires s.closed || c.binding in s.resolvers
    ensures var s' := Step(s, Run(t, bindOk, stopOk));
            && s'.tasks == s.tasks[t := UpsertStop(c.binding, if s.closed then None else Some(s.resolvers[c.binding]))]
            && s'.closed == s.closed && s'.bound == s.bound && s'.resolvers == s.resolvers
            && s'.retired == s.retired + {c}
  {
    assert Step(s, Run(t, bindOk, stopOk)) == AfterDecision(s, t, c);
  }

  lemma StopRuns(s: State, t: nat, b: Binding, existing: Option<Resolver>, bindOk: bool, stopOk: bool)
    requires t < |s.tasks| && s.tasks[t] == UpsertStop(b, existing)
    ensures Step(s, Run(t, bindOk, stopOk)) == To(s, t, UpsertDone(b, AfterStop(existing, stopOk)))
  {
  }

  lemma SomeError(errors: seq<ReconcileError>)
    ensures errors == [] || BindErrors(errors) != {} || exists b :: RemoveError(b) in errors
  {
    if errors != [] {
      var e := errors[0];
      assert e in errors && (e.BindError? ==> e.binding in BindErrors(errors));
      assert e.BindError? || e == RemoveError(e.binding);
    }
  }

  lemma NewBindError(errors: seq<ReconcileError>, b: Binding, source: UpsertError)
    requires OncePerBinding(errors) && b !in BindErrors(errors)
    ensures OncePerBinding(errors + [BindError(b, source)])
    ensures BindErrors(errors + [BindError(b, source)]) == BindErrors(errors) + {b}
  {
    BindErrorsAppend(errors, BindError(b, source));
    forall i | 0 <= i < |errors|
      ensures errors[i].binding != b || !errors[i].BindError?
    {
      if errors[i].BindError? {
        assert errors[i].binding in BindErrors(errors);
      }
    }
  }
}
