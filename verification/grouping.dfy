/** Grouping of endpoint records by certificate chain, selection of groups, and the two pipelines
    that turn groups into deduplicated, limited candidates. */
module Grouping {
  import opened Bytes
  import opened Certificate
  import opened Endpoint
  import opened Picking

  datatype Tagged<+T> = Tagged(tag: T, record: Endpoint, fallback: Option<ChainKey>)

  datatype Group<+T> = Group(chain: ChainKey, members: seq<(T, Address)>)

  datatype Family = FamilyV4 | FamilyV6

  type pos = n: nat | n > 0 witness 1

  datatype SequenceQuery = Default | Exact(sequence: Sequence) | Limit(count: pos) | All

  datatype Lookup = Lookup(sequences: SequenceQuery, recordLimit: Option<pos>, family: Option<Family>)

  function EffectiveChainKey(record: Endpoint, fallback: Option<ChainKey>): ChainKey {
    if record.flags.main || record.sequence.Some? || fallback.None? then record.CertificateChainKey()
    else fallback.value
  }

  function KeyOf<T>(r: Tagged<T>): ChainKey {
    EffectiveChainKey(r.record, r.fallback)
  }

  /** Only primary chains with an address that converts are kept. */
  predicate Kept<T>(r: Tagged<T>) {
    KeyOf(r).primary && ToAddress(r.record).Some?
  }

  function Member<T>(r: Tagged<T>): (T, Address)
    requires Kept(r)
  {
    (r.tag, ToAddress(r.record).value)
  }

  // ------------------------------------------------------------------------------------------
  // What grouping means, without the loop

  /** The kept records of chain `key`, in order. */
  function MembersOf<T>(records: seq<Tagged<T>>, key: ChainKey): seq<(T, Address)> {
    if records == [] then []
    else
      var last := records[|records| - 1];
      MembersOf(records[..|records| - 1], key) +
      if Kept(last) && KeyOf(last) == key then [Member(last)] else []
  }

  /** The chains of the kept records, in order of first appearance. */
  function FirstKeys<T>(records: seq<Tagged<T>>): (keys: seq<ChainKey>)
    ensures forall k :: k in keys ==> k.primary
  {
    if records == [] then []
    else
      var last, keys := records[|records| - 1], FirstKeys(records[..|records| - 1]);
      if Kept(last) && KeyOf(last) !in keys then keys + [KeyOf(last)] else keys
  }

  function GroupsOf<T>(records: seq<Tagged<T>>): (groups: seq<Group<T>>)
    ensures |groups| == |FirstKeys(records)|
  {
    var keys := FirstKeys(records);
    seq(|keys|, i requires 0 <= i < |keys| => Group(keys[i], MembersOf(records, keys[i])))
  }

  ghost predicate Distinct<T>(s: seq<T>) {
    forall i, j :: 0 <= i < j < |s| ==> s[i] != s[j]
  }

  /** When a record is kept, and under which chain: one that is marked primary speaks for itself;
      one that carries a sequence without the mark is secondary; one with neither belongs to the
      chain of its publisher, if that is known. */
  lemma KeptMeans<T>(r: Tagged<T>)
    ensures r.record.flags.main ==>
              KeyOf(r) == ChainKey(if r.record.sequence.Some? then r.record.sequence.value else 0, true)
    ensures !r.record.flags.main && r.record.sequence.Some? ==> KeyOf(r) == ChainKey(r.record.sequence.value, false)
    ensures !r.record.flags.main && r.record.sequence.None? ==>
              KeyOf(r) == if r.fallback.Some? then r.fallback.value else ChainKey(0, false)
    ensures Kept(r) <==>
            && (r.record.flags.main ||
                (r.record.sequence.None? && r.fallback.Some? && r.fallback.value.primary))
            && (r.record.agent.Some? ==> r.record.agent.value.V6? == r.record.primary.V6?)
  {
  }

  predicate OfChain<T>(r: Tagged<T>, key: ChainKey) {
    Kept(r) && KeyOf(r) == key
  }

  /** The kept records of a chain, each in its place. */
  ghost function MemberVals<T>(records: seq<Tagged<T>>, key: ChainKey): (vals: seq<Option<(T, Address)>>)
    ensures |vals| == |records|
  {
    seq(|records|, i requires 0 <= i < |records| =>
      if OfChain(records[i], key) then Some(Member(records[i])) else None)
  }

  lemma {:induction false} MembersAreSomes<T>(records: seq<Tagged<T>>, key: ChainKey, n: nat)
    requires n <= |records|
    ensures MembersOf(records[..n], key) == Somes(MemberVals(records, key), n)
  {
    hide Kept, KeyOf, Member;
    if n > 0 {
      MembersAreSomes(records, key, n - 1);
      assert records[..n][..n - 1] == records[..n - 1];
    }
  }

  /** The members of a chain are the kept records of it, in order. */
  lemma MembersAt<T>(records: seq<Tagged<T>>, key: ChainKey) returns (at: seq<nat>)
    ensures Stand(MemberVals(records, key), |records|, at, MembersOf(records, key))
  {
    hide MemberVals, MembersOf, Stand;
    at := SomesAt(MemberVals(records, key), |records|);
    MembersAreSomes(records, key, |records|);
    assert records[..|records|] == records;
  }

  ghost predicate FirstOfChain<T>(records: seq<Tagged<T>>, i: int) {
    && 0 <= i < |records| && Kept(records[i])
    && forall j :: 0 <= j < i && Kept(records[j]) ==> KeyOf(records[j]) != KeyOf(records[i])
  }

  /** The chain of each record that is the first of its chain. */
  ghost function KeyVals<T>(records: seq<Tagged<T>>): (vals: seq<Option<ChainKey>>)
    ensures |vals| == |records|
  {
    seq(|records|, i requires 0 <= i < |records| =>
      if FirstOfChain(records, i) then Some(KeyOf(records[i])) else None)
  }

  lemma KeysLast<T>(records: seq<Tagged<T>>, n: nat)
    requires n < |records|
    ensures FirstKeys(records[..n + 1]) ==
            if FirstOfChain(records, n) then FirstKeys(records[..n]) + [KeyOf(records[n])] else FirstKeys(records[..n])
  {
    hide Kept, KeyOf;
    assert records[..n + 1][..n] == records[..n];
    KeyOfSome(records[..n], KeyOf(records[n]));
    assert forall j :: 0 <= j < n ==> records[..n][j] == records[j];
  }

  lemma {:induction false} KeysAreSomes<T>(records: seq<Tagged<T>>, n: nat)
    requires n <= |records|
    ensures FirstKeys(records[..n]) == Somes(KeyVals(records), n)
  {
    if n > 0 {
      hide Kept, KeyOf, FirstKeys, FirstOfChain;
      KeysAreSomes(records, n - 1);
      KeysLast(records, n - 1);
    }
  }

  /** The groups come in the order in which their first records do. */
  lemma KeysAt<T>(records: seq<Tagged<T>>) returns (at: seq<nat>)
    ensures Stand(KeyVals(records), |records|, at, FirstKeys(records))
  {
    hide KeyVals, FirstKeys, Stand;
    at := SomesAt(KeyVals(records), |records|);
    KeysAreSomes(records, |records|);
    assert records[..|records|] == records;
  }

  lemma {:induction false} KeyOfSome<T>(records: seq<Tagged<T>>, key: ChainKey)
    ensures key in FirstKeys(records) <==>
            exists i :: 0 <= i < |records| && Kept(records[i]) && KeyOf(records[i]) == key
  {
    if records != [] {
      hide Kept, KeyOf;
      var init := records[..|records| - 1];
      KeyOfSome(init, key);
      assert forall i :: 0 <= i < |init| ==> init[i] == records[i];
    }
  }

  lemma {:induction false} FirstKeysDistinct<T>(records: seq<Tagged<T>>)
    ensures Distinct(FirstKeys(records))
  {
    if records != [] {
      FirstKeysDistinct(records[..|records| - 1]);
    }
  }

  lemma {:induction false} KeyPresentIffMember<T>(records: seq<Tagged<T>>, key: ChainKey)
    ensures key in FirstKeys(records) <==> MembersOf(records, key) != []
  {
    if records != [] {
      KeyPresentIffMember(records[..|records| - 1], key);
    }
  }

  /** Keys are distinct and primary, no group is empty, and a group holds exactly the kept
      records of its chain, in order. */
  lemma GroupsArePartition<T>(records: seq<Tagged<T>>)
    ensures forall i, j :: 0 <= i < j < |GroupsOf(records)| ==> GroupsOf(records)[i].chain != GroupsOf(records)[j].chain
    ensures forall i :: 0 <= i < |GroupsOf(records)| ==>
              var g := GroupsOf(records)[i];
              g.chain.primary && g.members != [] && g.members == MembersOf(records, g.chain)
  {
    FirstKeysDistinct(records);
    forall i | 0 <= i < |GroupsOf(records)|
      ensures MembersOf(records, GroupsOf(records)[i].chain) != []
    {
      KeyPresentIffMember(records, FirstKeys(records)[i]);
    }
  }

  /** All kept records, whatever their chain. */
  function KeptMembers<T>(records: seq<Tagged<T>>): seq<(T, Address)> {
    if records == [] then []
    else
      var last := records[|records| - 1];
      KeptMembers(records[..|records| - 1]) + if Kept(last) then [Member(last)] else []
  }

  ghost function MembersOver<T>(records: seq<Tagged<T>>, keys: seq<ChainKey>): multiset<(T, Address)> {
    if keys == [] then multiset{}
    else multiset(MembersOf(records, keys[0])) + MembersOver(records, keys[1..])
  }

  lemma Associate<T>(a: multiset<T>, b: multiset<T>, c: multiset<T>)
    ensures a + b + c == a + (b + c)
  {
  }

  lemma MembersOverHead<T>(records: seq<Tagged<T>>, keys: seq<ChainKey>)
    requires keys != []
    ensures MembersOver(records, keys) ==
            multiset(MembersOf(records, keys[0])) + MembersOver(records, keys[1..])
  {
  }

  lemma {:induction false} MembersOverLast<T>(records: seq<Tagged<T>>, keys: seq<ChainKey>, key: ChainKey)
    ensures MembersOver(records, keys + [key]) ==
            MembersOver(records, keys) + multiset(MembersOf(records, key))
    decreases |keys|
  {
    hide MembersOf, MembersOver;
    var all := keys + [key];
    MembersOverHead(records, all);
    if keys == [] {
      assert all == [key] && all[1..] == [];
      NoKeys(records);
    } else {
      MembersOverHead(records, keys);
      MembersOverLast(records, keys[1..], key);
      assert all[0] == keys[0] && all[1..] == keys[1..] + [key];
      var head, last := multiset(MembersOf(records, keys[0])), multiset(MembersOf(records, key));
      Associate(head, MembersOver(records, keys[1..]), last);
    }
  }

  lemma {:induction false} MembersOverStep<T>(records: seq<Tagged<T>>, r: Tagged<T>, keys: seq<ChainKey>)
    requires Distinct(keys)
    ensures MembersOver(records + [r], keys) ==
            MembersOver(records, keys) +
            if Kept(r) && KeyOf(r) in keys then multiset{Member(r)} else multiset{}
    decreases |keys|
  {
    assert (records + [r])[..|records|] == records;
    if keys != [] {
      MembersOverStep(records, r, keys[1..]);
      assert KeyOf(r) in keys <==> KeyOf(r) == keys[0] || KeyOf(r) in keys[1..];
      assert KeyOf(r) == keys[0] ==> KeyOf(r) !in keys[1..];
    }
  }

  lemma NoKeys<T>(records: seq<Tagged<T>>)
    ensures MembersOver(records, []) == multiset{}
  {
  }

  /** Nothing is lost and nothing is invented. */
  lemma {:induction false} GroupingConserves<T>(records: seq<Tagged<T>>)
    ensures MembersOver(records, FirstKeys(records)) == multiset(KeptMembers(records))
  {
    hide MembersOf, Kept, KeyOf, MembersOver;
    if records == [] {
      NoKeys(records);
    } else {
      var init, last := records[..|records| - 1], records[|records| - 1];
      var keys := FirstKeys(init);
      GroupingConserves(init);
      FirstKeysDistinct(init);
      FirstKeysDistinct(records);
      assert init + [last] == records;
      MembersOverStep(init, last, FirstKeys(records));
      if Kept(last) && KeyOf(last) !in keys {
        MembersOverLast(init, keys, KeyOf(last));
        KeyPresentIffMember(init, KeyOf(last));
      }
    }
  }

  // ------------------------------------------------------------------------------------------
  // The loop of the program

  /** The index of the first group of this chain, or the number of groups. */
  function FindGroup<T>(groups: seq<Group<T>>, key: ChainKey): (i: nat)
    ensures i <= |groups|
    ensures i < |groups| ==> groups[i].chain == key
    ensures forall j :: 0 <= j < i ==> groups[j].chain != key
  {
    if groups == [] then 0
    else if groups[0].chain == key then 0
    else
      assert forall j :: 1 <= j < |groups| ==> groups[j] == groups[1..][j - 1];
      1 + FindGroup(groups[1..], key)
  }

  /** What one more record does to the chains, and to the members of one of them. */
  lemma LastRecord<T>(records: seq<Tagged<T>>, r: Tagged<T>, key: ChainKey)
    ensures FirstKeys(records + [r]) ==
            if Kept(r) && KeyOf(r) !in FirstKeys(records) then FirstKeys(records) + [KeyOf(r)] else FirstKeys(records)
    ensures MembersOf(records + [r], key) ==
            if Kept(r) && KeyOf(r) == key then MembersOf(records, key) + [Member(r)] else MembersOf(records, key)
  {
    hide Kept, KeyOf;
    assert (records + [r])[..|records|] == records;
  }

  lemma GroupAt<T>(records: seq<Tagged<T>>, j: nat)
    requires j < |FirstKeys(records)|
    ensures GroupsOf(records)[j] == Group(FirstKeys(records)[j], MembersOf(records, FirstKeys(records)[j]))
  {
  }

  lemma FoundGroup<T>(records: seq<Tagged<T>>, key: ChainKey)
    ensures var i := FindGroup(GroupsOf(records), key);
            && (key in FirstKeys(records) <==> i < |GroupsOf(records)|)
            && forall j :: 0 <= j < |FirstKeys(records)| ==> (FirstKeys(records)[j] == key <==> j == i)
  {
    hide FirstKeys, MembersOf, FindGroup;
    FirstKeysDistinct(records);
    assert forall j :: 0 <= j < |FirstKeys(records)| ==> GroupsOf(records)[j].chain == FirstKeys(records)[j];
  }

  lemma GroupsStep<T>(records: seq<Tagged<T>>, r: Tagged<T>)
    ensures var groups, groups' := GroupsOf(records), GroupsOf(records + [r]);
            var i := FindGroup(groups, KeyOf(r));
            groups' ==
            if !Kept(r) then groups
            else if i < |groups| then groups[i := Group(KeyOf(r), groups[i].members + [Member(r)])]
            else groups + [Group(KeyOf(r), [Member(r)])]
  {
    hide Kept, KeyOf, FirstKeys, MembersOf, FindGroup, GroupsOf, Member;
    var all := records + [r];
    var groups, groups' := GroupsOf(records), GroupsOf(all);
    var i := FindGroup(groups, KeyOf(r));
    LastRecord(records, r, KeyOf(r));
    FoundGroup(records, KeyOf(r));
    KeyPresentIffMember(records, KeyOf(r));
    forall j | 0 <= j < |groups|
      ensures groups'[j] == if Kept(r) && j == i then Group(KeyOf(r), groups[j].members + [Member(r)]) else groups[j]
    {
      GroupAt(records, j);
      GroupAt(all, j);
      LastRecord(records, r, groups[j].chain);
    }
    if Kept(r) && i == |groups| {
      GroupAt(all, i);
      assert [] + [Member(r)] == [Member(r)];
    }
  }

  method GroupedEndpointCandidates<T>(records: seq<Tagged<T>>) returns (groups: seq<Group<T>>)
    ensures groups == GroupsOf(records)
  {
    groups := [];
    for n := 0 to |records|
      invariant groups == GroupsOf(records[..n])
    {
      var r := records[n];
      assert records[..n + 1] == records[..n] + [r];
      GroupsStep(records[..n], r);
      var key := EffectiveChainKey(r.record, r.fallback);
      if !key.primary {
        continue;
      }
      var endpoint := ToAddress(r.record);
      if endpoint.None? {
        continue;
      }
      var i := FindGroup(groups, key);
      if i < |groups| {
        groups := groups[i := Group(groups[i].chain, groups[i].members + [(r.tag, endpoint.value)])];
      } else {
        groups := groups + [Group(key, [(r.tag, endpoint.value)])];
      }
    }
    assert records[..|records|] == records;
  }

  // ------------------------------------------------------------------------------------------
  // Selection

  predicate MatchesFamily(a: Address, family: Option<Family>) {
    var addr := if a.Direct? then a.addr else a.outer;
    family.None? || (addr.V6? <==> family.value == FamilyV6)
  }

  function FilterMembers<T>(ms: seq<(T, Address)>, family: Option<Family>): seq<(T, Address)> {
    if ms == [] then []
    else if MatchesFamily(ms[0].1, family) then [ms[0]] + FilterMembers(ms[1..], family)
    else FilterMembers(ms[1..], family)
  }

  /** Every member of the family stays, as often as it was there. */
  lemma {:induction false} FilterMembersKeeps<T>(ms: seq<(T, Address)>, family: Option<Family>, m: (T, Address))
    ensures multiset(FilterMembers(ms, family))[m] == if MatchesFamily(m.1, family) then multiset(ms)[m] else 0
  {
    hide MatchesFamily;
    if ms != [] {
      FilterMembersKeeps(ms[1..], family, m);
      assert ms == [ms[0]] + ms[1..];
    }
  }

  function FilterGroups<T>(groups: seq<Group<T>>, family: Option<Family>): seq<Group<T>> {
    if family.None? then groups
    else if groups == [] then []
    else
      var ms := FilterMembers(groups[0].members, family);
      var rest := FilterGroups(groups[1..], family);
      if ms == [] then rest else [Group(groups[0].chain, ms)] + rest
  }

  /** What the filter of one family leaves: the groups with a member of it, cut down to those. */
  lemma {:induction false} FilterGroupsKeeps<T>(groups: seq<Group<T>>, family: Family, g: Group<T>)
    ensures g in FilterGroups(groups, Some(family)) <==>
            g.members != [] &&
            exists h :: h in groups && h.chain == g.chain && FilterMembers(h.members, Some(family)) == g.members
  {
    hide FilterMembers;
    if groups != [] {
      FilterGroupsKeeps(groups[1..], family, g);
      assert groups == [groups[0]] + groups[1..];
    }
  }

  method FilterEndpointCandidateGroups<T>(groups: seq<Group<T>>, family: Option<Family>) returns (r: seq<Group<T>>)
    ensures r == FilterGroups(groups, family)
  {
    hide FilterMembers;
    if family.None? {
      return groups;
    }
    r := [];
    for i := 0 to |groups|
      invariant r + FilterGroups(groups[i..], family) == FilterGroups(groups, family)
    {
      assert groups[i..][1..] == groups[i + 1..];
      var ms := FilterMembers(groups[i].members, family);
      if ms != [] {
        r := r + [Group(groups[i].chain, ms)];
      }
    }
  }

  lemma FilterMembersCons<T>(m: (T, Address), rest: seq<(T, Address)>, family: Option<Family>)
    ensures FilterMembers([m] + rest, family) ==
            (if MatchesFamily(m.1, family) then [m] else []) + FilterMembers(rest, family)
  {
    hide MatchesFamily;
    assert ([m] + rest)[1..] == rest;
  }

  lemma {:induction false} FilterMembersLast<T>(ms: seq<(T, Address)>, m: (T, Address), family: Option<Family>)
    ensures FilterMembers(ms + [m], family) ==
            FilterMembers(ms, family) + if MatchesFamily(m.1, family) then [m] else []
  {
    hide MatchesFamily;
    if ms == [] {
      FilterMembersCons(m, [], family);
      assert ms + [m] == [m] + [];
    } else {
      hide FilterMembers;
      var head, tail := ms[0], ms[1..];
      FilterMembersLast(tail, m, family);
      FilterMembersCons(head, tail, family);
      FilterMembersCons(head, tail + [m], family);
      assert ms == [head] + tail && ms + [m] == [head] + (tail + [m]);
    }
  }

  /** The members of a family, each in its place. */
  ghost function FamilyVals<T>(ms: seq<(T, Address)>, family: Option<Family>): (vals: seq<Option<(T, Address)>>)
    ensures |vals| == |ms|
  {
    seq(|ms|, i requires 0 <= i < |ms| => if MatchesFamily(ms[i].1, family) then Some(ms[i]) else None)
  }

  lemma {:induction false} FilteredAreSomes<T>(ms: seq<(T, Address)>, family: Option<Family>, n: nat)
    requires n <= |ms|
    ensures FilterMembers(ms[..n], family) == Somes(FamilyVals(ms, family), n)
  {
    if n > 0 {
      hide MatchesFamily, FilterMembers;
      FilteredAreSomes(ms, family, n - 1);
      FilterMembersLast(ms[..n - 1], ms[n - 1], family);
      assert ms[..n - 1] + [ms[n - 1]] == ms[..n];
    }
  }

  /** Filtering keeps the order of the members ... */
  lemma FilteredAt<T>(ms: seq<(T, Address)>, family: Option<Family>) returns (at: seq<nat>)
    ensures Stand(FamilyVals(ms, family), |ms|, at, FilterMembers(ms, family))
  {
    hide FamilyVals, FilterMembers, Stand;
    at := SomesAt(FamilyVals(ms, family), |ms|);
    FilteredAreSomes(ms, family, |ms|);
    assert ms[..|ms|] == ms;
  }

  /** What the two families are: the one of the address a peer connects to. */
  lemma Families(a: Address)
    ensures MatchesFamily(a, None)
    ensures a.Direct? ==>
              (MatchesFamily(a, Some(FamilyV4)) <==> a.addr.V4?) && (MatchesFamily(a, Some(FamilyV6)) <==> a.addr.V6?)
    ensures a.Mediate? ==>
              (MatchesFamily(a, Some(FamilyV4)) <==> a.outer.V4?) && (MatchesFamily(a, Some(FamilyV6)) <==> a.outer.V6?)
  {
  }

  function Filtered<T>(g: Group<T>, family: Family): seq<Group<T>> {
    var ms := FilterMembers(g.members, Some(family));
    if ms == [] then [] else [Group(g.chain, ms)]
  }

  lemma FilterGroupsCons<T>(g: Group<T>, rest: seq<Group<T>>, family: Family)
    ensures FilterGroups([g] + rest, Some(family)) == Filtered(g, family) + FilterGroups(rest, Some(family))
  {
    hide FilterMembers;
    assert ([g] + rest)[1..] == rest;
  }

  /** ... and of the groups: it goes through them one by one. */
  lemma {:induction false} FilterGroupsLast<T>(groups: seq<Group<T>>, g: Group<T>, family: Family)
    ensures FilterGroups(groups + [g], Some(family)) == FilterGroups(groups, Some(family)) + Filtered(g, family)
  {
    hide Filtered;
    if groups == [] {
      FilterGroupsCons(g, [], family);
      assert groups + [g] == [g] + [];
    } else {
      hide FilterGroups;
      var head, tail := groups[0], groups[1..];
      FilterGroupsLast(tail, g, family);
      FilterGroupsCons(head, tail, family);
      FilterGroupsCons(head, tail + [g], family);
      assert groups == [head] + tail && groups + [g] == [head] + (tail + [g]);
    }
  }

  function FilterSequence<T>(groups: seq<Group<T>>, sequence: Sequence): seq<Group<T>> {
    if groups == [] then []
    else if groups[0].chain.sequence == sequence then [groups[0]] + FilterSequence(groups[1..], sequence)
    else FilterSequence(groups[1..], sequence)
  }

  function AtMost<T>(s: seq<T>, n: nat): seq<T> {
    if |s| <= n then s else s[..n]
  }

  function SelectGroupPairs<T>(groups: seq<Group<T>>, query: SequenceQuery): (r: seq<Group<T>>)
    ensures !query.Exact? ==> r <= groups
    ensures query.All? ==> r == groups
    ensures query.Default? ==> |r| <= 3 && (|r| < 3 ==> r == groups)
    ensures query.Limit? ==> |r| <= query.count && (|r| < query.count ==> r == groups)
  {
    match query
    case Default => AtMost(groups, 3)
    case Exact(sequence) => FilterSequence(groups, sequence)
    case Limit(count) => AtMost(groups, count)
    case All => groups
  }

  /** The find-first selector of the local-network resolver. */
  function FindSequence<T>(groups: seq<Group<T>>, sequence: Sequence): seq<Group<T>> {
    if groups == [] then []
    else if groups[0].chain.primary && groups[0].chain.sequence == sequence then [groups[0]]
    else FindSequence(groups[1..], sequence)
  }

  function SelectedEndpointRecords<T>(records: seq<Tagged<T>>, sequence: Option<Sequence>): seq<(T, Address)> {
    var groups := GroupsOf(records);
    if sequence.Some? then
      var found := FindSequence(groups, sequence.value);
      if found == [] then [] else found[0].members
    else if groups == [] then [] else groups[0].members
  }

  lemma {:induction false} ExactFindsFirst<T>(groups: seq<Group<T>>, sequence: Sequence)
    requires forall i, j :: 0 <= i < j < |groups| ==> groups[i].chain != groups[j].chain
    requires forall i :: 0 <= i < |groups| ==> groups[i].chain.primary
    ensures FilterSequence(groups, sequence) == FindSequence(groups, sequence)
    ensures |FilterSequence(groups, sequence)| <= 1
  {
    if groups != [] {
      ExactFindsFirst(groups[1..], sequence);
      if groups[0].chain.sequence == sequence && FilterSequence(groups[1..], sequence) != [] {
        FilteredInside(groups[1..], sequence);
        assert false;
      }
    }
  }

  lemma {:induction false} FilteredInside<T>(groups: seq<Group<T>>, sequence: Sequence)
    requires FilterSequence(groups, sequence) != []
    ensures exists i :: 0 <= i < |groups| && groups[i].chain.sequence == sequence
  {
    if groups[0].chain.sequence != sequence {
      FilteredInside(groups[1..], sequence);
    }
  }

  /** Selecting one sequence gives at most one group, and the same one as the find-first
      selector: the members of that chain. */
  lemma ExactSelection<T>(records: seq<Tagged<T>>, sequence: Sequence)
    ensures var selected := SelectGroupPairs(GroupsOf(records), Exact(sequence));
            && |selected| <= 1
            && selected == FindSequence(GroupsOf(records), sequence)
            && SelectedEndpointRecords(records, Some(sequence)) == MembersOf(records, ChainKey(sequence, true))
            && (selected == [] <==> MembersOf(records, ChainKey(sequence, true)) == [])
  {
    GroupsArePartition(records);
    var groups := GroupsOf(records);
    ExactFindsFirst(groups, sequence);
    var key := ChainKey(sequence, true);
    KeyPresentIffMember(records, key);
    FindSequenceFinds(groups, sequence);
    if key in FirstKeys(records) {
      var i :| 0 <= i < |FirstKeys(records)| && FirstKeys(records)[i] == key;
      assert groups[i].chain == key;
    }
  }

  lemma {:induction false} FindSequenceFinds<T>(groups: seq<Group<T>>, sequence: Sequence)
    requires forall i :: 0 <= i < |groups| ==> groups[i].chain.primary
    ensures FindSequence(groups, sequence) != [] ==>
              FindSequence(groups, sequence)[0] in groups &&
              FindSequence(groups, sequence)[0].chain == ChainKey(sequence, true)
    ensures FindSequence(groups, sequence) == [] ==>
              forall i :: 0 <= i < |groups| ==> groups[i].chain != ChainKey(sequence, true)
  {
    if groups != [] {
      FindSequenceFinds(groups[1..], sequence);
      assert forall i :: 1 <= i < |groups| ==> groups[i] == groups[1..][i - 1];
    }
  }

  /** Nothing before position `i` is kept, and `i` itself is, unless it is the end. */
  ghost predicate FirstKept<T>(records: seq<Tagged<T>>, i: nat) {
    && i <= |records| && (i < |records| ==> Kept(records[i]))
    && forall j :: 0 <= j < i ==> !Kept(records[j])
  }

  lemma {:induction false} LeadingKey<T>(records: seq<Tagged<T>>, i: nat, n: nat)
    requires FirstKept(records, i) && n <= |records|
    ensures n <= i ==> FirstKeys(records[..n]) == []
    ensures n > i ==> FirstKeys(records[..n]) != [] && FirstKeys(records[..n])[0] == KeyOf(records[i])
  {
    hide Kept, KeyOf;
    if n > 0 {
      LeadingKey(records, i, n - 1);
      assert records[..n][..n - 1] == records[..n - 1];
    }
  }

  /** Without a sequence the members of the first chain are selected: the one of the first record
      that is kept. */
  lemma FirstSelection<T>(records: seq<Tagged<T>>, i: nat)
    requires FirstKept(records, i)
    ensures SelectedEndpointRecords(records, None) ==
            if i == |records| then [] else MembersOf(records, KeyOf(records[i]))
  {
    hide FirstKeys, MembersOf, FirstKept, KeyOf;
    LeadingKey(records, i, |records|);
    assert records[..|records|] == records;
    KeptInside(records, i);
  }

  lemma KeptInside<T>(records: seq<Tagged<T>>, i: nat)
    requires FirstKept(records, i)
    ensures i <= |records|
  {
  }

  // ------------------------------------------------------------------------------------------
  // From groups to candidates

  datatype Candidate<+S> = Candidate(chain: ChainKey, endpoints: seq<Address>, sources: seq<S>)

  /** Each address at its first appearance only. */
  function FirstMembers<T>(ms: seq<(T, Address)>): seq<(T, Address)> {
    if ms == [] then []
    else
      var first, last := FirstMembers(ms[..|ms| - 1]), ms[|ms| - 1];
      if exists i :: 0 <= i < |first| && first[i].1 == last.1 then first else first + [last]
  }

  function Addresses<T>(ms: seq<(T, Address)>): (r: seq<Address>)
    ensures |r| == |ms|
  {
    seq(|ms|, i requires 0 <= i < |ms| => ms[i].1)
  }

  /** What both pipelines keep of a group. */
  function Retained<T>(ms: seq<(T, Address)>, limit: Option<pos>): seq<(T, Address)> {
    if limit.Some? then AtMost(FirstMembers(ms), limit.value) else FirstMembers(ms)
  }

  /** The addresses of a prefix determine which members are first. */
  lemma {:induction false} FirstMembersAgree<S, T>(a: seq<(S, Address)>, b: seq<(T, Address)>)
    requires Addresses(a) == Addresses(b)
    ensures Addresses(FirstMembers(a)) == Addresses(FirstMembers(b))
  {
    assert |a| == |b|;
    if a != [] {
      var a', b' := a[..|a| - 1], b[..|b| - 1];
      assert Addresses(a') == Addresses(a)[..|a| - 1] && Addresses(b') == Addresses(b)[..|b| - 1];
      assert Addresses(a)[|a| - 1] == a[|a| - 1].1 && Addresses(b)[|b| - 1] == b[|b| - 1].1;
      FirstMembersAgree(a', b');
      var fa, fb := FirstMembers(a'), FirstMembers(b');
      assert forall i :: 0 <= i < |fa| ==> fa[i].1 == Addresses(fa)[i];
      assert forall i :: 0 <= i < |fb| ==> fb[i].1 == Addresses(fb)[i];
    }
  }

  /** Which addresses are kept does not depend on the tags. */
  lemma RetainedIgnoresTags<S, T>(a: seq<(S, Address)>, b: seq<(T, Address)>, limit: Option<pos>)
    requires Addresses(a) == Addresses(b)
    ensures Addresses(Retained(a, limit)) == Addresses(Retained(b, limit))
  {
    FirstMembersAgree(a, b);
    if limit.Some? && |FirstMembers(a)| > limit.value {
      var n := limit.value;
      assert |Addresses(FirstMembers(a))| == |Addresses(FirstMembers(b))|;
      assert Addresses(FirstMembers(a)[..n]) == Addresses(FirstMembers(a))[..n];
      assert Addresses(FirstMembers(b)[..n]) == Addresses(FirstMembers(b))[..n];
    }
  }

  lemma {:induction false} FirstMembersDistinct<T>(ms: seq<(T, Address)>)
    ensures Distinct(Addresses(FirstMembers(ms)))
    ensures forall m :: m in FirstMembers(ms) ==> m in ms
    ensures forall i :: 0 <= i < |ms| ==> ms[i].1 in Addresses(FirstMembers(ms))
    ensures ms != [] ==> FirstMembers(ms) != []
  {
    if ms != [] {
      var init, last := ms[..|ms| - 1], ms[|ms| - 1];
      FirstMembersDistinct(init);
      var first, all := FirstMembers(init), FirstMembers(ms);
      assert forall i :: 0 <= i < |first| ==> Addresses(first)[i] == Addresses(all)[i] == first[i].1;
      forall i | 0 <= i < |ms|
        ensures ms[i].1 in Addresses(all)
      {
        if i < |ms| - 1 {
          assert init[i] == ms[i];
          var k :| 0 <= k < |first| && Addresses(first)[k] == ms[i].1;
          assert Addresses(all)[k] == ms[i].1;
        } else if k :| 0 <= k < |first| && first[k].1 == last.1 {
          assert Addresses(all)[k] == last.1;
        } else {
          assert Addresses(all)[|first|] == last.1;
        }
      }
    }
  }

  ghost predicate FirstWithAddress<T>(ms: seq<(T, Address)>, i: int) {
    0 <= i < |ms| && forall j :: 0 <= j < i ==> ms[j].1 != ms[i].1
  }

  /** The first member of each address, each in its place. */
  ghost function FirstVals<T>(ms: seq<(T, Address)>): (vals: seq<Option<(T, Address)>>)
    ensures |vals| == |ms|
  {
    seq(|ms|, i requires 0 <= i < |ms| => if FirstWithAddress(ms, i) then Some(ms[i]) else None)
  }

  lemma {:induction false} FirstMembersAreSomes<T>(ms: seq<(T, Address)>, n: nat)
    requires n <= |ms|
    ensures FirstMembers(ms[..n]) == Somes(FirstVals(ms), n)
  {
    if n > 0 {
      hide FirstMembers, FirstWithAddress;
      FirstMembersAreSomes(ms, n - 1);
      FirstAgain(ms, n - 1);
    }
  }

  /** Deduplication keeps exactly the first member of each address, in order. */
  lemma FirstMembersAt<T>(ms: seq<(T, Address)>) returns (at: seq<nat>)
    ensures Stand(FirstVals(ms), |ms|, at, FirstMembers(ms))
  {
    hide FirstVals, FirstMembers, Stand;
    at := SomesAt(FirstVals(ms), |ms|);
    FirstMembersAreSomes(ms, |ms|);
    assert ms[..|ms|] == ms;
  }

  lemma FirstAgain<T>(ms: seq<(T, Address)>, n: nat)
    requires n < |ms|
    ensures FirstMembers(ms[..n + 1]) ==
            if FirstWithAddress(ms, n) then FirstMembers(ms[..n]) + [ms[n]] else FirstMembers(ms[..n])
  {
    hide FirstMembers;
    assert ms[..n + 1] == ms[..n] + [ms[n]];
    FirstMembersStep(ms[..n], ms[n]);
    AddressContained(ms[..n], ms[n].1);
    assert forall j :: 0 <= j < n ==> ms[..n][j] == ms[j];
  }

  lemma AddressContained<T>(ms: seq<(T, Address)>, a: Address)
    ensures Contains(FirstMembers(ms), a) <==> exists j :: 0 <= j < |ms| && ms[j].1 == a
  {
    hide FirstMembers;
    FirstMembersDistinct(ms);
    var first := FirstMembers(ms);
    if j :| 0 <= j < |ms| && ms[j].1 == a {
      assert a in Addresses(first);
      var k :| 0 <= k < |first| && Addresses(first)[k] == a;
      assert first[k].1 == a;
    }
    if k :| 0 <= k < |first| && first[k].1 == a {
      assert first[k] in first;
      var j :| 0 <= j < |ms| && ms[j] == first[k];
    }
  }

  /** The limit cuts the deduplicated list, and nothing else does. */
  lemma RetainedLimit<T>(ms: seq<(T, Address)>, limit: Option<pos>)
    ensures Retained(ms, limit) <= FirstMembers(ms)
    ensures limit.None? ==> Retained(ms, limit) == FirstMembers(ms)
    ensures limit.Some? ==> |Retained(ms, limit)| <= limit.value
    ensures limit.Some? && |Retained(ms, limit)| < limit.value ==> Retained(ms, limit) == FirstMembers(ms)
  {
    hide FirstMembers;
  }

  predicate Contains<T>(ms: seq<(T, Address)>, a: Address) {
    exists i :: 0 <= i < |ms| && ms[i].1 == a
  }

  lemma FirstMembersStep<T>(ms: seq<(T, Address)>, m: (T, Address))
    ensures FirstMembers(ms + [m]) ==
            if Contains(FirstMembers(ms), m.1) then FirstMembers(ms) else FirstMembers(ms) + [m]
  {
    assert (ms + [m])[..|ms|] == ms;
  }

  function Sources<S(==)>(ms: seq<(S, Address)>): seq<S> {
    if ms == [] then []
    else
      var sources := Sources(ms[..|ms| - 1]);
      if ms[|ms| - 1].0 in sources then sources else sources + [ms[|ms| - 1].0]
  }

  lemma SourcesNothing<S>()
    ensures Sources<S>([]) == []
  {
  }

  lemma SourcesStep<S>(ms: seq<(S, Address)>)
    requires ms != []
    ensures var sources, last := Sources(ms[..|ms| - 1]), ms[|ms| - 1].0;
            Sources(ms) == if last in sources then sources else sources + [last]
  {
  }

  /** The sources come in the order in which they first appear. */
  lemma SourcesGrow<S>(ms: seq<(S, Address)>, n: nat)
    requires n < |ms|
    ensures Sources(ms[..n + 1]) ==
            if exists j :: 0 <= j < n && ms[j].0 == ms[n].0 then Sources(ms[..n]) else Sources(ms[..n]) + [ms[n].0]
  {
    hide Sources;
    SourcesStep(ms[..n + 1]);
    assert ms[..n + 1][..n] == ms[..n];
    SourcesOnce(ms[..n]);
    assert forall j :: 0 <= j < n ==> ms[..n][j] == ms[j];
  }

  /** Every source is there, and once. */
  lemma {:induction false} SourcesOnce<S>(ms: seq<(S, Address)>)
    ensures Distinct(Sources(ms))
    ensures forall i :: 0 <= i < |ms| ==> ms[i].0 in Sources(ms)
    ensures forall s :: s in Sources(ms) ==> exists i :: 0 <= i < |ms| && ms[i].0 == s
  {
    if ms != [] {
      var init := ms[..|ms| - 1];
      SourcesOnce(init);
      assert forall i :: 0 <= i < |init| ==> ms[i] == init[i];
      assert ms[|ms| - 1].0 in Sources(ms);
    }
  }

  /** The local pipeline for one group: the limit is checked before each push. */
  method LocalCandidate<S(==)>(g: Group<S>, limit: Option<pos>) returns (c: Candidate<S>)
    ensures c == Candidate(g.chain, Addresses(Retained(g.members, limit)), Sources(g.members))
    ensures Distinct(c.sources) && forall i :: 0 <= i < |g.members| ==> g.members[i].0 in c.sources
  {
    hide Retained, FirstMembers, Distinct, Sources;
    RetainedNothing<S>(limit);
    SourcesNothing<S>();
    var sources, endpoints := [], [];
    ghost var kept: seq<(S, Address)> := [];
    for i := 0 to |g.members|
      invariant sources == Sources(g.members[..i])
      invariant kept == Retained(g.members[..i], limit)
      invariant endpoints == Addresses(kept)
    {
      var (source, endpoint) := g.members[i];
      assert g.members[..i + 1][..i] == g.members[..i];
      SourcesStep(g.members[..i + 1]);
      RetainedStep(g.members[..i], g.members[i], limit);
      assert g.members[..i] + [g.members[i]] == g.members[..i + 1];
      if source !in sources {
        sources := sources + [source];
      }
      if endpoint !in endpoints && (limit.None? || |endpoints| < limit.value) {
        endpoints := endpoints + [endpoint];
        kept := kept + [g.members[i]];
        assert Addresses(kept) == endpoints;
      }
    }
    assert g.members[..|g.members|] == g.members;
    c := Candidate(g.chain, endpoints, sources);
    SourcesOnce(g.members);
  }

  lemma RetainedNothing<T>(limit: Option<pos>)
    ensures Retained<T>([], limit) == []
  {
  }

  /** Checking the limit early keeps the same members as taking a prefix at the end. */
  lemma RetainedStep<T>(ms: seq<(T, Address)>, m: (T, Address), limit: Option<pos>)
    ensures var kept := Retained(ms, limit);
            Retained(ms + [m], limit) ==
            if m.1 !in Addresses(kept) && (limit.None? || |kept| < limit.value) then kept + [m] else kept
  {
    FirstMembersStep(ms, m);
    var first, kept := FirstMembers(ms), Retained(ms, limit);
    assert forall i :: 0 <= i < |kept| ==> Addresses(kept)[i] == first[i].1;
    if limit.None? || |first| <= limit.value {
      assert kept == first;
      assert Contains(first, m.1) <==> m.1 in Addresses(kept) by {
        if Contains(first, m.1) {
          var i :| 0 <= i < |first| && first[i].1 == m.1;
          assert Addresses(kept)[i] == m.1;
        }
      }
    }
  }

  /** Nothing is kept any more once the limit is reached. */
  lemma {:induction false} RetainedFull<T>(ms: seq<(T, Address)>, n: nat, limit: pos)
    requires n <= |ms| && |Retained(ms[..n], Some(limit))| == limit
    ensures Retained(ms, Some(limit)) == Retained(ms[..n], Some(limit))
    decreases |ms| - n
  {
    if n == |ms| {
      assert ms[..n] == ms;
    } else {
      assert ms[..n + 1] == ms[..n] + [ms[n]];
      RetainedStep(ms[..n], ms[n], Some(limit));
      RetainedFull(ms, n + 1, limit);
    }
  }

  /** The remote pipeline for one group: addresses not seen before pass, until the limit is
      reached and nothing more is read; each one that passes lowers the time to live. */
  method RemoteCandidate<S>(g: Group<u32>, limit: Option<pos>, source: S, before: Option<u32>)
    returns (c: Candidate<S>, ttl: Option<u32>)
    ensures c == Candidate(g.chain, Addresses(Retained(g.members, limit)), [source])
    ensures ttl == LeastTtl(before, Retained(g.members, limit))
  {
    hide Retained, FirstMembers, Least;
    ttl := before;
    var endpoints: seq<Address> := [];
    var seen: set<Address> := {};
    var i := 0;
    ghost var kept: seq<(u32, Address)> := [];
    RetainedNothing<u32>(limit);
    while i < |g.members| && (limit.None? || |endpoints| < limit.value)
      invariant 0 <= i <= |g.members|
      invariant kept == Retained(g.members[..i], limit)
      invariant limit.Some? ==> |kept| <= limit.value
      invariant endpoints == Addresses(kept) && ttl == LeastTtl(before, kept)
      invariant forall a :: a in seen <==> a in endpoints
    {
      var (recordTtl, endpoint) := g.members[i];
      RetainedStep(g.members[..i], g.members[i], limit);
      assert g.members[..i] + [g.members[i]] == g.members[..i + 1];
      if endpoint !in seen {
        seen := seen + {endpoint};
        ttl := Least(ttl, recordTtl);
        endpoints := endpoints + [endpoint];
        assert (kept + [g.members[i]])[..|kept|] == kept;
        kept := kept + [g.members[i]];
        assert Addresses(kept) == endpoints;
      }
      i := i + 1;
    }
    if i < |g.members| {
      RetainedFull(g.members, i, limit.value);
    } else {
      assert g.members[..i] == g.members;
    }
    c := Candidate(g.chain, endpoints, [source]);
  }

  function Least(current: Option<u32>, ttl: u32): Option<u32> {
    if current.Some? && current.value < ttl then current else Some(ttl)
  }

  function LeastTtl(before: Option<u32>, ms: seq<(u32, Address)>): Option<u32> {
    if ms == [] then before else Least(LeastTtl(before, ms[..|ms| - 1]), ms[|ms| - 1].0)
  }

  lemma {:induction false} LeastTtlIsMinimum(before: Option<u32>, ms: seq<(u32, Address)>)
    ensures ms != [] ==> LeastTtl(before, ms).Some?
    ensures before.Some? ==> LeastTtl(before, ms).Some? && LeastTtl(before, ms).value <= before.value
    ensures LeastTtl(before, ms).Some? ==>
              && (forall i :: 0 <= i < |ms| ==> LeastTtl(before, ms).value <= ms[i].0)
              && (before == LeastTtl(before, ms) || exists i :: 0 <= i < |ms| && ms[i].0 == LeastTtl(before, ms).value)
  {
    if ms != [] {
      var init := ms[..|ms| - 1];
      LeastTtlIsMinimum(before, init);
      assert forall i :: 0 <= i < |init| ==> init[i] == ms[i];
    }
  }

  /** How long an answer stays fresh, from its DNS lifetime and the parsed HTTP headers. */
  function Freshness(dnsTtl: nat, noStore: bool, maxAge: Option<nat>, age: nat): (left: nat)
    ensures left > 0 ==> !noStore && left + age <= dnsTtl && (maxAge.Some? ==> left + age <= maxAge.value)
    ensures !noStore && age < dnsTtl && (maxAge.Some? ==> age < maxAge.value) ==>
              left + age == dnsTtl || (maxAge.Some? && left + age == maxAge.value)
  {
    if noStore then 0
    else
      var ttl := if maxAge.Some? && maxAge.value < dnsTtl then maxAge.value else dnsTtl;
      if ttl <= age then 0 else ttl - age
  }

  // ------------------------------------------------------------------------------------------
  // Whole answers

  /** The retained members of every selected group, with the chain. */
  function Answer<T>(groups: seq<Group<T>>, limit: Option<pos>): seq<Group<T>> {
    if groups == [] then []
    else
      Answer(groups[..|groups| - 1], limit) +
      [Group(groups[|groups| - 1].chain, Retained(groups[|groups| - 1].members, limit))]
  }

  /** One group of the answer for each selected group, in order. */
  lemma {:induction false} AnswerAt<T>(groups: seq<Group<T>>, limit: Option<pos>)
    ensures |Answer(groups, limit)| == |groups|
    ensures forall i :: 0 <= i < |groups| ==>
              Answer(groups, limit)[i] == Group(groups[i].chain, Retained(groups[i].members, limit))
  {
    hide Retained;
    if groups != [] {
      AnswerAt(groups[..|groups| - 1], limit);
    }
  }

  function RemoteCandidates<S>(answer: seq<Group<u32>>, source: S): (r: seq<Candidate<S>>)
    ensures |r| == |answer|
  {
    seq(|answer|, i requires 0 <= i < |answer| => Candidate(answer[i].chain, Addresses(answer[i].members), [source]))
  }

  function AnswerTtl(answer: seq<Group<u32>>): Option<u32> {
    if answer == [] then None else LeastTtl(AnswerTtl(answer[..|answer| - 1]), answer[|answer| - 1].members)
  }

  datatype RemoteResult<+S> = Found(candidates: seq<Candidate<S>>, ttl: nat) | NoRecordFound | NoUsableRecord

  ghost predicate NoneEmpty<T>(groups: seq<Group<T>>) {
    forall i :: 0 <= i < |groups| ==> groups[i].members != []
  }

  /** The remote answer: every selected group in order, and a lifetime that never exceeds the
      smallest time to live of a record that was kept. */
  method RemoteAnswer<S>(
    records: seq<Tagged<u32>>, rejected: nat, lookup: Lookup, source: S, noStore: bool, maxAge: Option<nat>, age: nat)
    returns (r: RemoteResult<S>)
    ensures var selected := Selected(records, lookup);
            var answer := Answer(selected, lookup.recordLimit);
            if selected == [] then r == if rejected == 0 then NoRecordFound else NoUsableRecord
            else
              && AnswerTtl(answer).Some?
              && r == Found(RemoteCandidates(answer, source), Freshness(AnswerTtl(answer).value, noStore, maxAge, age))
              && forall g, m :: g in answer && m in g.members ==> r.ttl <= m.0
  {
    hide Retained, SelectGroupPairs, FilterGroups, GroupsOf, LeastTtl, Freshness, RemoteCandidates, AnswerTtl;
    var groups := GroupedEndpointCandidates(records);
    var filtered := FilterEndpointCandidateGroups(groups, lookup.family);
    var selected := SelectGroupPairs(filtered, lookup.sequences);
    assert NoneEmpty(selected) by {
      GroupsArePartition(records);
      SelectedNoneEmpty(groups, lookup);
    }
    AnswerNothing(source);
    ghost var answer: seq<Group<u32>> := [];
    var ttl: Option<u32> := None;
    var candidates: seq<Candidate<S>> := [];
    for i := 0 to |selected|
      invariant answer == Answer(selected[..i], lookup.recordLimit)
      invariant ttl == AnswerTtl(answer) && (i > 0 ==> ttl.Some?)
      invariant candidates == RemoteCandidates(answer, source)
    {
      assert selected[..i + 1][..i] == selected[..i];
      var c;
      c, ttl := RemoteCandidate(selected[i], lookup.recordLimit, source, ttl);
      ghost var kept := Retained(selected[i].members, lookup.recordLimit);
      RetainedSome(selected[i].members, lookup.recordLimit);
      AnswerStep(answer, Group(selected[i].chain, kept), source);
      answer := answer + [Group(selected[i].chain, kept)];
      if c.endpoints != [] {
        candidates := candidates + [c];
      }
    }
    assert selected[..|selected|] == selected;
    if candidates == [] {
      r := if rejected == 0 then NoRecordFound else NoUsableRecord;
    } else {
      AnswerTtlIsMinimum(answer);
      r := Found(candidates, Freshness(ttl.value, noStore, maxAge, age));
    }
  }

  lemma AnswerNothing<S>(source: S)
    ensures RemoteCandidates([], source) == [] && AnswerTtl([]) == None
  {
  }

  lemma AnswerStep<S>(answer: seq<Group<u32>>, g: Group<u32>, source: S)
    requires g.members != []
    ensures RemoteCandidates(answer + [g], source) ==
            RemoteCandidates(answer, source) + [Candidate(g.chain, Addresses(g.members), [source])]
    ensures AnswerTtl(answer + [g]) == LeastTtl(AnswerTtl(answer), g.members)
    ensures AnswerTtl(answer + [g]).Some?
  {
    assert (answer + [g])[..|answer|] == answer;
    LeastTtlIsMinimum(AnswerTtl(answer), g.members);
  }

  lemma RetainedSome<T>(ms: seq<(T, Address)>, limit: Option<pos>)
    requires ms != []
    ensures Retained(ms, limit) != []
  {
    FirstMembersDistinct(ms);
  }

  lemma {:induction false} AnswerTtlIsMinimum(answer: seq<Group<u32>>)
    ensures AnswerTtl(answer).Some? ==>
              forall g, m :: g in answer && m in g.members ==> AnswerTtl(answer).value <= m.0
    ensures AnswerTtl(answer).None? ==> forall g :: g in answer ==> g.members == []
    ensures AnswerTtl(answer).Some? ==> exists g, m :: g in answer && m in g.members && m.0 == AnswerTtl(answer).value
  {
    if answer != [] {
      var init, last := answer[..|answer| - 1], answer[|answer| - 1];
      AnswerTtlIsMinimum(init);
      LeastTtlIsMinimum(AnswerTtl(init), last.members);
      forall g, m | g in answer && m in g.members
        ensures AnswerTtl(answer).value <= m.0
      {
        if g in init {
        } else {
          assert g == last;
        }
      }
    }
  }

  lemma {:induction false} FilterNoneEmpty<T>(groups: seq<Group<T>>, family: Option<Family>)
    requires NoneEmpty(groups)
    ensures NoneEmpty(FilterGroups(groups, family))
  {
    if groups != [] && family.Some? {
      FilterNoneEmpty(groups[1..], family);
    }
  }

  lemma {:induction false} FilterSequenceNoneEmpty<T>(groups: seq<Group<T>>, sequence: Sequence)
    requires NoneEmpty(groups)
    ensures NoneEmpty(FilterSequence(groups, sequence))
  {
    if groups != [] {
      FilterSequenceNoneEmpty(groups[1..], sequence);
    }
  }

  lemma SelectedNoneEmpty<T>(groups: seq<Group<T>>, lookup: Lookup)
    requires NoneEmpty(groups)
    ensures NoneEmpty(SelectGroupPairs(FilterGroups(groups, lookup.family), lookup.sequences))
  {
    FilterNoneEmpty(groups, lookup.family);
    if lookup.sequences.Exact? {
      FilterSequenceNoneEmpty(FilterGroups(groups, lookup.family), lookup.sequences.sequence);
    }
  }

  function LocalCandidates<S(==)>(groups: seq<Group<S>>, limit: Option<pos>): seq<Candidate<S>> {
    if groups == [] then []
    else
      var last := groups[|groups| - 1];
      LocalCandidates(groups[..|groups| - 1], limit) +
      [Candidate(last.chain, Addresses(Retained(last.members, limit)), Sources(last.members))]
  }

  /** The local answer: a candidate for every selected group, in order. */
  method LocalAnswer<S(==)>(records: seq<Tagged<S>>, lookup: Lookup) returns (candidates: seq<Candidate<S>>)
    ensures candidates == LocalCandidates(Selected(records, lookup), lookup.recordLimit)
  {
    hide Retained, SelectGroupPairs, FilterGroups, GroupsOf, Sources;
    var groups := GroupedEndpointCandidates(records);
    var filtered := FilterEndpointCandidateGroups(groups, lookup.family);
    var selected := SelectGroupPairs(filtered, lookup.sequences);
    assert NoneEmpty(selected) by {
      GroupsArePartition(records);
      SelectedNoneEmpty(groups, lookup);
    }
    candidates := [];
    for n := 0 to |selected|
      invariant candidates == LocalCandidates(selected[..n], lookup.recordLimit)
    {
      assert selected[..n + 1][..n] == selected[..n];
      var c := LocalCandidate(selected[n], lookup.recordLimit);
      RetainedSome(selected[n].members, lookup.recordLimit);
      if c.endpoints != [] {
        candidates := candidates + [c];
      }
    }
    assert selected[..|selected|] == selected;
  }

  /** The local candidates carry the chains and endpoints of the answer. */
  lemma {:induction false} LocalIsAnswer<S>(groups: seq<Group<S>>, limit: Option<pos>)
    ensures |LocalCandidates(groups, limit)| == |Answer(groups, limit)|
    ensures forall i :: 0 <= i < |Answer(groups, limit)| ==>
              && LocalCandidates(groups, limit)[i].chain == Answer(groups, limit)[i].chain
              && LocalCandidates(groups, limit)[i].endpoints == Addresses(Answer(groups, limit)[i].members)
  {
    hide Retained, Sources;
    if groups != [] {
      LocalIsAnswer(groups[..|groups| - 1], limit);
    }
  }

  /** Same chains with the same addresses, whatever the tags. */
  ghost predicate SameShape<S, T>(a: seq<Group<S>>, b: seq<Group<T>>) {
    && |a| == |b|
    && forall i :: 0 <= i < |a| ==> a[i].chain == b[i].chain && Addresses(a[i].members) == Addresses(b[i].members)
  }

  ghost predicate SameRecords<S, T>(a: seq<Tagged<S>>, b: seq<Tagged<T>>) {
    && |a| == |b|
    && forall i :: 0 <= i < |a| ==> a[i].record == b[i].record && a[i].fallback == b[i].fallback
  }

  lemma {:induction false} SameKeys<S, T>(a: seq<Tagged<S>>, b: seq<Tagged<T>>)
    requires SameRecords(a, b)
    ensures FirstKeys(a) == FirstKeys(b)
  {
    if a != [] {
      SameKeys(a[..|a| - 1], b[..|b| - 1]);
    }
  }

  lemma {:induction false} SameMembers<S, T>(a: seq<Tagged<S>>, b: seq<Tagged<T>>, key: ChainKey)
    requires SameRecords(a, b)
    ensures Addresses(MembersOf(a, key)) == Addresses(MembersOf(b, key))
  {
    if a != [] {
      var a', b' := a[..|a| - 1], b[..|b| - 1];
      SameMembers(a', b', key);
      var x, y := a[|a| - 1], b[|b| - 1];
      assert Kept(x) == Kept(y) && KeyOf(x) == KeyOf(y);
      assert |Addresses(MembersOf(a', key))| == |Addresses(MembersOf(b', key))|;
      if Kept(x) && KeyOf(x) == key {
        assert Addresses(MembersOf(a, key)) == Addresses(MembersOf(a', key)) + [Member(x).1];
        assert Addresses(MembersOf(b, key)) == Addresses(MembersOf(b', key)) + [Member(y).1];
      } else {
        assert MembersOf(a, key) == MembersOf(a', key) && MembersOf(b, key) == MembersOf(b', key);
      }
    }
  }

  lemma {:induction false} SameFiltered<S, T>(a: seq<(S, Address)>, b: seq<(T, Address)>, family: Option<Family>)
    requires Addresses(a) == Addresses(b)
    ensures Addresses(FilterMembers(a, family)) == Addresses(FilterMembers(b, family))
  {
    hide MatchesFamily;
    assert |Addresses(a)| == |Addresses(b)|;
    if a != [] {
      assert Addresses(a)[0] == a[0].1 && Addresses(b)[0] == b[0].1;
      assert Addresses(a[1..]) == Addresses(a)[1..] && Addresses(b[1..]) == Addresses(b)[1..];
      SameFiltered(a[1..], b[1..], family);
      var fa, fb := FilterMembers(a[1..], family), FilterMembers(b[1..], family);
      assert Addresses([a[0]] + fa) == [a[0].1] + Addresses(fa);
      assert Addresses([b[0]] + fb) == [b[0].1] + Addresses(fb);
    }
  }

  lemma {:induction false} SameFilteredGroups<S, T>(a: seq<Group<S>>, b: seq<Group<T>>, family: Option<Family>)
    requires SameShape(a, b)
    ensures SameShape(FilterGroups(a, family), FilterGroups(b, family))
  {
    hide FilterMembers;
    if a != [] && family.Some? {
      SameFilteredGroups(a[1..], b[1..], family);
      var ma, mb := FilterMembers(a[0].members, family), FilterMembers(b[0].members, family);
      SameFiltered(a[0].members, b[0].members, family);
      assert |Addresses(ma)| == |Addresses(mb)|;
    }
  }

  lemma {:induction false} SameSequence<S, T>(a: seq<Group<S>>, b: seq<Group<T>>, sequence: Sequence)
    requires SameShape(a, b)
    ensures SameShape(FilterSequence(a, sequence), FilterSequence(b, sequence))
  {
    if a != [] {
      SameSequence(a[1..], b[1..], sequence);
    }
  }

  lemma {:induction false} SameAnswer<S, T>(a: seq<Group<S>>, b: seq<Group<T>>, limit: Option<pos>)
    requires SameShape(a, b)
    ensures SameShape(Answer(a, limit), Answer(b, limit))
  {
    if a != [] {
      SameAnswer(a[..|a| - 1], b[..|b| - 1], limit);
      RetainedIgnoresTags(a[|a| - 1].members, b[|b| - 1].members, limit);
    }
  }

  /** The groups a lookup selects. */
  function Selected<T>(records: seq<Tagged<T>>, lookup: Lookup): seq<Group<T>> {
    SelectGroupPairs(FilterGroups(GroupsOf(records), lookup.family), lookup.sequences)
  }

  lemma SelectedAgree<S, T>(a: seq<Tagged<S>>, b: seq<Tagged<T>>, lookup: Lookup)
    requires SameRecords(a, b)
    ensures SameShape(Selected(a, lookup), Selected(b, lookup))
  {
    hide FirstKeys, MembersOf, FilterGroups, FilterSequence;
    SameKeys(a, b);
    forall i | 0 <= i < |FirstKeys(a)|
      ensures Addresses(GroupsOf(a)[i].members) == Addresses(GroupsOf(b)[i].members)
    {
      SameMembers(a, b, FirstKeys(a)[i]);
    }
    var fa, fb := FilterGroups(GroupsOf(a), lookup.family), FilterGroups(GroupsOf(b), lookup.family);
    SameFilteredGroups(GroupsOf(a), GroupsOf(b), lookup.family);
    if lookup.sequences.Exact? {
      SameSequence(fa, fb, lookup.sequences.sequence);
    }
  }

  /** For the same records and the same lookup, what the remote pipeline returns and what the
      local pipeline returns have the same chains and the same endpoints, in the same order. */
  lemma AnswersAgree<S, T>(a: seq<Tagged<u32>>, b: seq<Tagged<S>>, lookup: Lookup, source: T)
    requires SameRecords(a, b)
    ensures var remote := RemoteCandidates(Answer(Selected(a, lookup), lookup.recordLimit), source);
            var local := LocalCandidates(Selected(b, lookup), lookup.recordLimit);
            && |remote| == |local|
            && forall i :: 0 <= i < |local| ==>
                             remote[i].chain == local[i].chain && remote[i].endpoints == local[i].endpoints
  {
    hide Selected, Answer, LocalCandidates;
    SelectedAgree(a, b, lookup);
    SameAnswer(Selected(a, lookup), Selected(b, lookup), lookup.recordLimit);
    LocalIsAnswer(Selected(b, lookup), lookup.recordLimit);
  }
}
