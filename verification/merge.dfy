/** Merging the candidate groups of several resolvers, in whatever order they arrive. */
module Merge {
  import opened Bytes
  import opened Certificate
  import opened Endpoint
  import opened Grouping

  function FindChain<S>(groups: seq<Candidate<S>>, chain: ChainKey): (i: nat)
    ensures i <= |groups|
    ensures i < |groups| ==> groups[i].chain == chain
    ensures forall j :: 0 <= j < i ==> groups[j].chain != chain
  {
    if groups == [] || groups[0].chain == chain then 0
    else
      assert forall j :: 1 <= j < |groups| ==> groups[j] == groups[1..][j - 1];
      1 + FindChain(groups[1..], chain)
  }

  /** The elements of `s` that are not in `present`, in order. */
  function Without<T(==)>(s: seq<T>, present: seq<T>): seq<T> {
    if s == [] then []
    else if s[0] in present then Without(s[1..], present)
    else [s[0]] + Without(s[1..], present)
  }

  lemma {:induction false} WithoutHas<T>(s: seq<T>, present: seq<T>)
    ensures forall x :: x in Without(s, present) <==> x in s && x !in present
  {
    if s != [] {
      WithoutHas(s[1..], present);
      assert s == [s[0]] + s[1..];
    }
  }

  lemma WithoutHead<T>(x: T, rest: seq<T>, present: seq<T>)
    ensures Without([x] + rest, present) == (if x in present then [] else [x]) + Without(rest, present)
  {
    assert ([x] + rest)[1..] == rest;
  }

  /** What is left keeps its order. */
  lemma {:induction false} WithoutConcat<T>(a: seq<T>, b: seq<T>, present: seq<T>)
    ensures Without(a + b, present) == Without(a, present) + Without(b, present)
    decreases |a|
  {
    if a == [] {
      assert a + b == b;
    } else {
      hide Without;
      var x, rest := a[0], a[1..];
      WithoutConcat(rest, b, present);
      WithoutHead(x, rest, present);
      WithoutHead(x, rest + b, present);
      assert a == [x] + rest && a + b == [x] + (rest + b);
    }
  }

  lemma {:induction false} WithoutDistinct<T>(s: seq<T>, present: seq<T>)
    requires Distinct(s) && Distinct(present)
    ensures Distinct(present + Without(s, present))
  {
    if s != [] {
      WithoutDistinct(s[1..], present);
      WithoutHas(s[1..], present);
      assert s[0] !in s[1..];
      var rest := Without(s[1..], present);
      if s[0] !in present {
        assert s[0] !in present + rest;
        InsertDistinct(present, s[0], rest);
      }
    }
  }

  lemma InsertDistinct<T>(a: seq<T>, x: T, b: seq<T>)
    requires Distinct(a + b) && x !in a + b
    ensures Distinct(a + ([x] + b))
  {
    var all, s := a + b, a + ([x] + b);
    forall i, j | 0 <= i < j < |s|
      ensures s[i] != s[j]
    {
      assert s[i] == if i < |a| then all[i] else if i == |a| then x else all[i - 1];
      assert s[j] == if j < |a| then all[j] else if j == |a| then x else all[j - 1];
    }
  }

  function MergeOne<S(==)>(target: seq<Candidate<S>>, g: Candidate<S>): seq<Candidate<S>> {
    var i := FindChain(target, g.chain);
    if i < |target| then
      var t := target[i];
      var endpoints := t.endpoints + Without(g.endpoints, t.endpoints);
      var sources := t.sources + Without(g.sources, t.sources);
      target[i := Candidate(t.chain, endpoints, sources)]
    else target + [g]
  }

  function MergeAll<S(==)>(groups: seq<Candidate<S>>): seq<Candidate<S>> {
    if groups == [] then [] else MergeOne(MergeAll(groups[..|groups| - 1]), groups[|groups| - 1])
  }

  function Flatten<S>(results: seq<seq<Candidate<S>>>): seq<Candidate<S>> {
    if results == [] then [] else Flatten(results[..|results| - 1]) + results[|results| - 1]
  }

  // ------------------------------------------------------------------------------------------
  // The loops of the program

  /** Drops from `s` what is already in `present`, as `retain` does. */
  method Retain<T(==)>(s: seq<T>, present: seq<T>) returns (r: seq<T>)
    ensures r == Without(s, present)
  {
    r := [];
    for i := 0 to |s|
      invariant r + Without(s[i..], present) == Without(s, present)
    {
      assert s[i..][1..] == s[i + 1..];
      if s[i] !in present {
        r := r + [s[i]];
      }
    }
  }

  method MergeGroup<S(==)>(start: seq<Candidate<S>>, g: Candidate<S>) returns (target: seq<Candidate<S>>)
    ensures target == MergeOne(start, g)
  {
    target := start;
    var i := FindChain(target, g.chain);
    if i < |target| {
      var endpoints := Retain(g.endpoints, target[i].endpoints);
      var sources := Retain(g.sources, target[i].sources);
      target := target[i := Candidate(target[i].chain, target[i].endpoints + endpoints, target[i].sources + sources)];
    } else {
      target := target + [g];
    }
  }

  method MergeGroups<S(==)>(start: seq<Candidate<S>>, groups: seq<Candidate<S>>, ghost before: seq<Candidate<S>>)
    returns (target: seq<Candidate<S>>)
    requires start == MergeAll(before)
    ensures target == MergeAll(before + groups)
  {
    hide MergeOne;
    target := start;
    assert before + groups[..0] == before;
    for n := 0 to |groups|
      invariant target == MergeAll(before + groups[..n])
    {
      assert (before + groups[..n + 1])[..|before| + n] == before + groups[..n];
      target := MergeGroup(target, groups[n]);
    }
    assert groups[..|groups|] == groups;
  }

  /** What one resolver reports: candidates, or an error. */
  datatype Report<+S, +L> = Succeeded(label_: L, groups: seq<Candidate<S>>) | Failed(label_: L)

  datatype Outcome<+S, +L> = Candidates(groups: seq<Candidate<S>>) | AllFailed(errors: seq<L>)

  function Successes<S, L>(reports: seq<Report<S, L>>): seq<seq<Candidate<S>>> {
    if reports == [] then []
    else
      var last := reports[|reports| - 1];
      Successes(reports[..|reports| - 1]) + if last.Succeeded? then [last.groups] else []
  }

  function Failures<S, L>(reports: seq<Report<S, L>>): seq<L> {
    if reports == [] then []
    else
      var last := reports[|reports| - 1];
      Failures(reports[..|reports| - 1]) + if last.Failed? then [last.label_] else []
  }

  function OutcomeOf<S(==), L>(unsupported: seq<L>, reports: seq<Report<S, L>>): Outcome<S, L> {
    if Successes(reports) == [] then AllFailed(unsupported + Failures(reports))
    else Candidates(MergeAll(Flatten(Successes(reports))))
  }

  /** What a group can hold: an endpoint, a source, or nothing but its chain. */
  datatype Item<+S> = OfEndpoint(endpoint: Address) | OfSource(source: S) | JustChain

  predicate Holds<S(==)>(g: Candidate<S>, x: Item<S>) {
    match x
    case OfEndpoint(e) => e in g.endpoints
    case OfSource(s) => s in g.sources
    case JustChain => true
  }

  ghost predicate Has<S>(groups: seq<Candidate<S>>, chain: ChainKey, x: Item<S>) {
    exists i :: 0 <= i < |groups| && groups[i].chain == chain && Holds(groups[i], x)
  }

  ghost predicate SomeSucceeds<S, L>(reports: seq<Report<S, L>>) {
    exists i :: 0 <= i < |reports| && reports[i].Succeeded?
  }

  /** Some resolver that succeeded reported this endpoint, or source, for this chain. */
  ghost predicate Reported<S, L>(reports: seq<Report<S, L>>, chain: ChainKey, x: Item<S>) {
    exists i :: 0 <= i < |reports| && reports[i].Succeeded? && Has(reports[i].groups, chain, x)
  }

  /** `errors` are `first`, then the label of every report, in order. */
  ghost predicate NamesAll<S, L>(errors: seq<L>, first: seq<L>, reports: seq<Report<S, L>>) {
    && |errors| == |first| + |reports| && first <= errors
    && forall i :: 0 <= i < |reports| ==> errors[|first| + i] == reports[i].label_
  }

  /** `unsupported` are the resolvers without candidate lookup; `reports` arrive in any order.
      One success is enough; then every chain has the endpoints and sources of all resolvers that
      succeeded. Otherwise every resolver is named. */
  method LookupEndpointCandidates<S(==), L>(unsupported: seq<L>, reports: seq<Report<S, L>>)
    returns (r: Outcome<S, L>)
    ensures r == OutcomeOf(unsupported, reports)
    ensures r.Candidates? <==> SomeSucceeds(reports)
    ensures r.Candidates? ==> forall chain, x :: Has(r.groups, chain, x) <==> Reported(reports, chain, x)
    ensures r.AllFailed? ==> NamesAll(r.errors, unsupported, reports)
  {
    r := MergeReports(unsupported, reports);
    OutcomeMeans(unsupported, reports);
  }

  /** The loop over the reports. */
  method MergeReports<S(==), L>(unsupported: seq<L>, reports: seq<Report<S, L>>) returns (r: Outcome<S, L>)
    ensures r == OutcomeOf(unsupported, reports)
  {
    var groups: seq<Candidate<S>> := [];
    var errors := unsupported;
    var succeeded := false;
    assert unsupported + [] == unsupported;
    for n := 0 to |reports|
      invariant groups == MergeAll(Flatten(Successes(reports[..n])))
      invariant errors == unsupported + Failures(reports[..n])
      invariant succeeded <==> Successes(reports[..n]) != []
    {
      assert reports[..n + 1][..n] == reports[..n];
      ghost var before := Successes(reports[..n]);
      match reports[n]
      case Succeeded(_, more) =>
        succeeded := true;
        assert (before + [more])[..|before|] == before;
        groups := MergeGroups(groups, more, Flatten(before));
        assert Failures(reports[..n]) + [] == Failures(reports[..n]);
      case Failed(l) =>
        assert before + [] == before;
        errors := errors + [l];
    }
    assert reports[..|reports|] == reports;
    r := if !succeeded then AllFailed(errors) else Candidates(groups);
  }

  /** A merge only appends: what was there keeps its place, in the groups and in their lists. */
  lemma MergeOneAppends<S>(target: seq<Candidate<S>>, g: Candidate<S>, i: nat)
    requires i < |target|
    ensures var t := MergeOne(target, g);
            && |target| <= |t| <= |target| + 1
            && t[i].chain == target[i].chain
            && target[i].endpoints <= t[i].endpoints && target[i].sources <= t[i].sources
  {
  }

  /** So what arrived first comes first. */
  lemma {:induction false} MergeAllAppends<S>(first: seq<Candidate<S>>, later: seq<Candidate<S>>, i: nat)
    requires i < |MergeAll(first)|
    ensures var a, t := MergeAll(first), MergeAll(first + later);
            && |a| <= |t| && t[i].chain == a[i].chain
            && a[i].endpoints <= t[i].endpoints && a[i].sources <= t[i].sources
    decreases |later|
  {
    hide MergeOne;
    if later == [] {
      assert first + later == first;
    } else {
      var init := later[..|later| - 1];
      assert (first + later)[..|first + later| - 1] == first + init;
      MergeAllAppends(first, init, i);
      MergeOneAppends(MergeAll(first + init), later[|later| - 1], i);
    }
  }

  // ------------------------------------------------------------------------------------------
  // What a merge holds, whatever the order

  ghost predicate DistinctChains<S>(groups: seq<Candidate<S>>) {
    forall i, j :: 0 <= i < j < |groups| ==> groups[i].chain != groups[j].chain
  }

  ghost predicate DuplicateFree<S>(groups: seq<Candidate<S>>) {
    forall i :: 0 <= i < |groups| ==> Distinct(groups[i].endpoints) && Distinct(groups[i].sources)
  }

  lemma MergeOneKeeps<S>(target: seq<Candidate<S>>, g: Candidate<S>)
    requires DistinctChains(target) && DuplicateFree(target)
    requires Distinct(g.endpoints) && Distinct(g.sources)
    ensures DistinctChains(MergeOne(target, g)) && DuplicateFree(MergeOne(target, g))
  {
    var i := FindChain(target, g.chain);
    if i < |target| {
      WithoutDistinct(g.endpoints, target[i].endpoints);
      WithoutDistinct(g.sources, target[i].sources);
    }
  }

  /** Merging keeps chains distinct and lists free of duplicates. */
  lemma {:induction false} MergeAllKeeps<S>(groups: seq<Candidate<S>>)
    requires DuplicateFree(groups)
    ensures DistinctChains(MergeAll(groups)) && DuplicateFree(MergeAll(groups))
  {
    if groups != [] {
      MergeAllKeeps(groups[..|groups| - 1]);
      MergeOneKeeps(MergeAll(groups[..|groups| - 1]), groups[|groups| - 1]);
    }
  }

  lemma MergeOneHas<S>(target: seq<Candidate<S>>, g: Candidate<S>, chain: ChainKey, x: Item<S>)
    ensures Has(MergeOne(target, g), chain, x) <==> Has(target, chain, x) || (g.chain == chain && Holds(g, x))
  {
    var i, merged := FindChain(target, g.chain), MergeOne(target, g);
    assert |merged| >= |target|;
    assert merged[i].chain == g.chain;
    if i < |target| {
      WithoutHas(g.endpoints, target[i].endpoints);
      WithoutHas(g.sources, target[i].sources);
    }
    assert Holds(merged[i], x) <==> Holds(g, x) || (i < |target| && Holds(target[i], x));
    assert forall j :: 0 <= j < |target| && j != i ==> merged[j] == target[j];
  }

  lemma LastHas<S>(groups: seq<Candidate<S>>, chain: ChainKey, x: Item<S>)
    requires groups != []
    ensures var init, last := groups[..|groups| - 1], groups[|groups| - 1];
            Has(groups, chain, x) <==> Has(init, chain, x) || (last.chain == chain && Holds(last, x))
  {
    var init := groups[..|groups| - 1];
    assert forall j :: 0 <= j < |init| ==> groups[j] == init[j];
  }

  /** The merged chain has an endpoint, or a source, exactly when some result had it. */
  lemma {:induction false} MergeAllHas<S>(groups: seq<Candidate<S>>, chain: ChainKey, x: Item<S>)
    ensures Has(MergeAll(groups), chain, x) <==> Has(groups, chain, x)
  {
    if groups == [] {
      assert MergeAll(groups) == groups;
    } else {
      hide MergeOne, Has;
      var init, last := groups[..|groups| - 1], groups[|groups| - 1];
      MergeAllHas(init, chain, x);
      MergeOneHas(MergeAll(init), last, chain, x);
      LastHas(groups, chain, x);
    }
  }

  lemma ConcatHas<S>(a: seq<Candidate<S>>, b: seq<Candidate<S>>, chain: ChainKey, x: Item<S>)
    ensures Has(a + b, chain, x) <==> Has(a, chain, x) || Has(b, chain, x)
  {
    var all := a + b;
    assert forall i :: 0 <= i < |a| ==> all[i] == a[i];
    assert forall i :: 0 <= i < |b| ==> all[|a| + i] == b[i];
  }

  lemma NothingHas<S>(chain: ChainKey, x: Item<S>)
    ensures !Has<S>([], chain, x)
  {
  }

  lemma {:induction false} FlattenDuplicateFree<S>(results: seq<seq<Candidate<S>>>)
    requires forall i :: 0 <= i < |results| ==> DuplicateFree(results[i])
    ensures DuplicateFree(Flatten(results))
  {
    hide DuplicateFree;
    if results == [] {
      NothingDuplicate<S>();
    } else {
      FlattenDuplicateFree(results[..|results| - 1]);
      ConcatDuplicateFree(Flatten(results[..|results| - 1]), results[|results| - 1]);
    }
  }

  lemma NothingDuplicate<S>()
    ensures DuplicateFree<S>([])
  {
  }

  lemma ConcatDuplicateFree<S>(a: seq<Candidate<S>>, b: seq<Candidate<S>>)
    requires DuplicateFree(a) && DuplicateFree(b)
    ensures DuplicateFree(a + b)
  {
  }

  lemma RetainedDistinct<T>(ms: seq<(T, Address)>, limit: Option<pos>)
    ensures Distinct(Addresses(Retained(ms, limit)))
  {
    FirstMembersDistinct(ms);
    assert forall i :: 0 <= i < |Retained(ms, limit)| ==>
        Addresses(Retained(ms, limit))[i] == Addresses(FirstMembers(ms))[i];
  }

  /** What the local pipeline returns can be merged. */
  lemma {:induction false} LocalDuplicateFree<S>(groups: seq<Group<S>>, limit: Option<pos>)
    ensures DuplicateFree(LocalCandidates(groups, limit))
  {
    hide Retained, Sources;
    if groups != [] {
      LocalDuplicateFree(groups[..|groups| - 1], limit);
      RetainedDistinct(groups[|groups| - 1].members, limit);
      SourcesOnce(groups[|groups| - 1].members);
    }
  }

  /** And so can what the remote pipeline returns. */
  lemma {:induction false} RemoteDuplicateFree<S>(groups: seq<Group<u32>>, limit: Option<pos>, source: S)
    ensures DuplicateFree(RemoteCandidates(Answer(groups, limit), source))
  {
    hide Retained;
    if groups != [] {
      var init, last := groups[..|groups| - 1], groups[|groups| - 1];
      RemoteDuplicateFree(init, limit, source);
      RetainedDistinct(last.members, limit);
      var answer := Answer(init, limit);
      assert RemoteCandidates(Answer(groups, limit), source) ==
             RemoteCandidates(answer, source) +
             [Candidate(last.chain, Addresses(Retained(last.members, limit)), [source])];
    }
  }

  /** The results of a list of reports hold what the successful ones reported. */
  lemma {:induction false} SuccessesHave<S, L>(reports: seq<Report<S, L>>, chain: ChainKey, x: Item<S>)
    ensures Has(Flatten(Successes(reports)), chain, x) <==> Reported(reports, chain, x)
  {
    hide Has, Reported;
    if reports == [] {
      assert !Reported(reports, chain, x) by { NothingReported(reports, chain, x); }
      NothingHas<S>(chain, x);
    } else {
      var init, last := reports[..|reports| - 1], reports[|reports| - 1];
      SuccessesHave(init, chain, x);
      ReportedLast(reports, chain, x);
      var before := Successes(init);
      if last.Succeeded? {
        assert (before + [last.groups])[..|before|] == before;
        ConcatHas(Flatten(before), last.groups, chain, x);
      } else {
        assert before + [] == before;
      }
    }
  }

  lemma ReportedLast<S, L>(reports: seq<Report<S, L>>, chain: ChainKey, x: Item<S>)
    requires reports != []
    ensures var init, last := reports[..|reports| - 1], reports[|reports| - 1];
            Reported(reports, chain, x) <==> Reported(init, chain, x) || (last.Succeeded? && Has(last.groups, chain, x))
  {
    hide Has;
    assert forall i :: 0 <= i < |reports| - 1 ==> reports[..|reports| - 1][i] == reports[i];
  }

  lemma NothingReported<S, L>(reports: seq<Report<S, L>>, chain: ChainKey, x: Item<S>)
    requires reports == []
    ensures !Reported(reports, chain, x)
  {
  }

  lemma {:induction false} SuccessesSome<S, L>(reports: seq<Report<S, L>>)
    ensures Successes(reports) != [] <==> SomeSucceeds(reports)
  {
    if reports != [] {
      var init := reports[..|reports| - 1];
      SuccessesSome(init);
      assert forall i :: 0 <= i < |init| ==> init[i] == reports[i];
    }
  }

  lemma {:induction false} FailuresAll<S, L>(reports: seq<Report<S, L>>)
    requires !SomeSucceeds(reports)
    ensures |Failures(reports)| == |reports|
    ensures forall i :: 0 <= i < |reports| ==> Failures(reports)[i] == reports[i].label_
  {
    if reports != [] {
      var init := reports[..|reports| - 1];
      assert forall i :: 0 <= i < |init| ==> init[i] == reports[i];
      FailuresAll(init);
    }
  }

  /** What the outcome holds, in terms of the reports. */
  lemma OutcomeMeans<S, L>(unsupported: seq<L>, reports: seq<Report<S, L>>)
    ensures var r := OutcomeOf(unsupported, reports);
            && (r.Candidates? <==> SomeSucceeds(reports))
            && (r.Candidates? ==> forall chain, x :: Has(r.groups, chain, x) <==> Reported(reports, chain, x))
            && (r.AllFailed? ==> NamesAll(r.errors, unsupported, reports))
  {
    hide MergeAll, Flatten, Has, Reported, Successes, Failures;
    SuccessesSome(reports);
    var groups := Flatten(Successes(reports));
    forall chain, x: Item<S>
      ensures Has(MergeAll(groups), chain, x) <==> Reported(reports, chain, x)
    {
      MergeAllHas(groups, chain, x);
      SuccessesHave(reports, chain, x);
    }
    if !SomeSucceeds(reports) {
      FailuresAll(reports);
    }
  }

  lemma {:induction false} SuccessesDuplicateFree<S, L>(reports: seq<Report<S, L>>)
    requires forall i :: 0 <= i < |reports| && reports[i].Succeeded? ==> DuplicateFree(reports[i].groups)
    ensures forall i :: 0 <= i < |Successes(reports)| ==> DuplicateFree(Successes(reports)[i])
  {
    hide DuplicateFree;
    if reports != [] {
      SuccessesDuplicateFree(reports[..|reports| - 1]);
    }
  }

  /** Merging what was reported keeps chains distinct and lists free of duplicates. */
  lemma OutcomeKeeps<S, L>(unsupported: seq<L>, reports: seq<Report<S, L>>)
    requires forall i :: 0 <= i < |reports| && reports[i].Succeeded? ==> DuplicateFree(reports[i].groups)
    ensures var r := OutcomeOf(unsupported, reports);
            r.Candidates? ==> DistinctChains(r.groups) && DuplicateFree(r.groups)
  {
    hide DuplicateFree, DistinctChains, MergeAll, Flatten, Successes;
    SuccessesDuplicateFree(reports);
    FlattenDuplicateFree(Successes(reports));
    MergeAllKeeps(Flatten(Successes(reports)));
  }

  /** What is reported does not depend on the order of the reports. */
  lemma SameReports<S, L>(a: seq<Report<S, L>>, b: seq<Report<S, L>>)
    requires multiset(a) == multiset(b)
    ensures SomeSucceeds(a) ==> SomeSucceeds(b)
    ensures forall chain, x :: Reported(a, chain, x) ==> Reported(b, chain, x)
  {
    hide Has;
    forall i | 0 <= i < |a|
      ensures exists j :: 0 <= j < |b| && b[j] == a[i]
    {
      assert a[i] in multiset(a);
      assert a[i] in b;
    }
  }

  lemma {:induction false} FailuresCount<S, L>(reports: seq<Report<S, L>>, l: L)
    requires !SomeSucceeds(reports)
    ensures multiset(Failures(reports))[l] == multiset(reports)[Failed(l)]
  {
    if reports != [] {
      var init, last := reports[..|reports| - 1], reports[|reports| - 1];
      assert reports == init + [last];
      assert forall i :: 0 <= i < |init| ==> init[i] == reports[i];
      assert last.Failed?;
      FailuresCount(init, l);
    }
  }

  lemma SameFailures<S, L>(a: seq<Report<S, L>>, b: seq<Report<S, L>>)
    requires multiset(a) == multiset(b) && !SomeSucceeds(a) && !SomeSucceeds(b)
    ensures forall l :: multiset(Failures(a))[l] == multiset(Failures(b))[l]
  {
    hide Failures, SomeSucceeds;
    forall l
      ensures multiset(Failures(a))[l] == multiset(Failures(b))[l]
    {
      FailuresCount(a, l);
      FailuresCount(b, l);
    }
  }

  /** Any two arrival orders of the same reports agree: both fail, naming the same resolvers, or
      both succeed, with distinct chains, no duplicates, and for every chain the same endpoints
      and the same sources, namely those of all resolvers that succeeded. */
  lemma ArrivalOrderIrrelevant<S, L>(unsupported: seq<L>, a: seq<Report<S, L>>, b: seq<Report<S, L>>)
    requires multiset(a) == multiset(b)
    requires forall i :: 0 <= i < |a| && a[i].Succeeded? ==> DuplicateFree(a[i].groups)
    ensures var x, y := OutcomeOf(unsupported, a), OutcomeOf(unsupported, b);
            && (x.Candidates? <==> y.Candidates?)
            && (x.AllFailed? ==> forall l :: multiset(x.errors)[l] == multiset(y.errors)[l])
            && (x.Candidates? ==>
                  && DistinctChains(x.groups) && DuplicateFree(x.groups)
                  && forall chain, i :: Has(x.groups, chain, i) <==> Has(y.groups, chain, i))
  {
    hide MergeAll, Flatten, Has, Reported, DistinctChains, DuplicateFree, Successes, Failures, SomeSucceeds, NamesAll;
    SameReports(a, b);
    SameReports(b, a);
    OutcomeMeans(unsupported, a);
    OutcomeMeans(unsupported, b);
    OutcomeKeeps(unsupported, a);
    if !SomeSucceeds(a) {
      SameFailures(a, b);
    }
  }
}
