/** What a lookup accepts of a response body, record by record and answer by answer. */
module DecodeProofs {
  import opened Bytes
  import opened Names
  import opened Certificate
  import opened Packet
  import opened MultiResponse
  import opened Grouping
  import opened Picking
  import opened Publish

  /** A record that carries signature fields which do not verify. */
  predicate Forged(r: ResponseRecord, trust: Trust) {
    var f := r.signatureFields;
    (f.contentDigest != [] || f.signatureInput != [] || f.signature != []) && !trust.verify(f, r.dns, r.cert)
  }

  predicate Parses(r: ResponseRecord) {
    BePacket(r.dns).Ok? && BePacket(r.dns).rest == []
  }

  ghost predicate MessagesParse(rs: seq<ResponseRecord>, trust: Trust) {
    forall i :: 0 <= i < |rs| && !Forged(rs[i], trust) ==> Parses(rs[i])
  }

  function Answers(r: ResponseRecord): seq<ResourceRecord> {
    if Parses(r) then BePacket(r.dns).value.answers else []
  }

  predicate Matches(a: ResourceRecord, name: Name) {
    a.data.E? && a.name == name
  }

  /** Answer `p.1` of record `p.0` counts for a lookup of this name. */
  predicate Counts(rs: seq<ResponseRecord>, name: Name, trust: Trust, p: (int, int)) {
    && 0 <= p.0 < |rs| && !Forged(rs[p.0], trust)
    && 0 <= p.1 < |Answers(rs[p.0])| && Matches(Answers(rs[p.0])[p.1], name)
  }

  predicate Before(p: (int, int), q: (int, int)) {
    p.0 < q.0 || (p.0 == q.0 && p.1 < q.1)
  }

  /** An answer with its own time to live, and the chain its certificate names, if there is one. */
  function TaggedAnswer(r: ResponseRecord, a: ResourceRecord, trust: Trust): Tagged<u32>
    requires a.data.E?
  {
    Tagged(a.ttl, a.data.endpoint, if r.cert == [] then None else trust.chainOf(r.cert))
  }

  /** `tagged` are the answers at these positions, and these are all that count, in order. */
  ghost predicate Selects(
    rs: seq<ResponseRecord>, name: Name, trust: Trust, at: seq<(int, int)>, tagged: seq<Tagged<u32>>)
  {
    && |tagged| == |at|
    && (forall k, l :: 0 <= k < l < |at| ==> Before(at[k], at[l]))
    && (forall p :: p in at <==> Counts(rs, name, trust, p))
    && forall k :: 0 <= k < |at| ==>
         && Counts(rs, name, trust, at[k])
         && tagged[k] == TaggedAnswer(rs[at[k].0], Answers(rs[at[k].0])[at[k].1], trust)
  }

  ghost function ForgedAt(rs: seq<ResponseRecord>, trust: Trust): set<int> {
    set i | 0 <= i < |rs| && Forged(rs[i], trust)
  }

  /** The answers that match, each in its place. */
  ghost function MatchVals(answers: seq<ResourceRecord>, name: Name, fallback: Option<ChainKey>)
    : (vals: seq<Option<Tagged<u32>>>)
    ensures |vals| == |answers|
  {
    seq(|answers|, i requires 0 <= i < |answers| =>
      if Matches(answers[i], name) then Some(Tagged(answers[i].ttl, answers[i].data.endpoint, fallback)) else None)
  }

  lemma {:induction false} TaggedAreSomes(answers: seq<ResourceRecord>, name: Name, fallback: Option<ChainKey>, n: nat)
    requires n <= |answers|
    ensures TaggedAnswers(answers[..n], name, fallback) == Somes(MatchVals(answers, name, fallback), n)
  {
    if n > 0 {
      TaggedAreSomes(answers, name, fallback, n - 1);
      assert answers[..n][..n - 1] == answers[..n - 1];
    }
  }

  lemma MatchesAt(answers: seq<ResourceRecord>, name: Name, fallback: Option<ChainKey>) returns (at: seq<nat>)
    ensures Stand(MatchVals(answers, name, fallback), |answers|, at, TaggedAnswers(answers, name, fallback))
  {
    hide MatchVals, TaggedAnswers, Stand;
    at := SomesAt(MatchVals(answers, name, fallback), |answers|);
    TaggedAreSomes(answers, name, fallback, |answers|);
    assert answers[..|answers|] == answers;
  }

  lemma AcceptedIffNotForged(r: ResponseRecord, trust: Trust)
    ensures Accepted(r, trust) <==> !Forged(r, trust)
  {
  }

  lemma ForgedLast(rs: seq<ResponseRecord>, trust: Trust)
    requires rs != []
    ensures var init, last := rs[..|rs| - 1], rs[|rs| - 1];
            |ForgedAt(rs, trust)| == |ForgedAt(init, trust)| + if Forged(last, trust) then 1 else 0
  {
    hide Forged;
    var init, last := rs[..|rs| - 1], rs[|rs| - 1];
    assert forall i :: 0 <= i < |init| ==> init[i] == rs[i];
    assert ForgedAt(rs, trust) == ForgedAt(init, trust) + if Forged(last, trust) then {|init|} else {};
  }

  /** The positions of the answers of one more record. */
  function Of(n: int, local: seq<nat>): (r: seq<(int, int)>)
    ensures |r| == |local|
    ensures forall k :: 0 <= k < |r| ==> r[k] == (n, local[k])
  {
    seq(|local|, k requires 0 <= k < |local| => (n, local[k]))
  }

  lemma OfHas(n: int, local: seq<nat>, p: (int, int))
    ensures p in Of(n, local) <==> p.0 == n && p.1 in local
  {
    if p.0 == n && p.1 in local {
      var k :| 0 <= k < |local| && local[k] == p.1;
      assert Of(n, local)[k] == p;
    }
  }

  lemma CountsLast(rs: seq<ResponseRecord>, name: Name, trust: Trust, p: (int, int))
    requires rs != []
    ensures var n := |rs| - 1;
            Counts(rs, name, trust, p) <==>
            || Counts(rs[..n], name, trust, p)
            || (p.0 == n && !Forged(rs[n], trust)
                && 0 <= p.1 < |Answers(rs[n])| && Matches(Answers(rs[n])[p.1], name))
  {
    hide Forged, Answers, Matches;
    assert 0 <= p.0 < |rs| - 1 ==> rs[..|rs| - 1][p.0] == rs[p.0];
  }

  lemma CountsMore(rs: seq<ResponseRecord>, name: Name, trust: Trust, at: seq<(int, int)>, local: seq<nat>)
    requires rs != []
    requires forall p :: p in at <==> Counts(rs[..|rs| - 1], name, trust, p)
    requires var r := rs[|rs| - 1];
             && !Forged(r, trust)
             && forall j :: j in local <==> 0 <= j < |Answers(r)| && Matches(Answers(r)[j], name)
    ensures forall p :: p in at + Of(|rs| - 1, local) <==> Counts(rs, name, trust, p)
  {
    hide Forged, Answers, Matches, Counts;
    var n := |rs| - 1;
    forall p
      ensures p in at + Of(n, local) <==> Counts(rs, name, trust, p)
    {
      OfHas(n, local, p);
      CountsLast(rs, name, trust, p);
    }
  }

  lemma OrderedMore(at: seq<(int, int)>, n: nat, local: seq<nat>, m: nat)
    requires forall k, l :: 0 <= k < l < |at| ==> Before(at[k], at[l])
    requires (forall k :: 0 <= k < |at| ==> at[k].0 < n) && Positions(local, m)
    ensures var all := at + Of(n, local);
            forall k, l :: 0 <= k < l < |all| ==> Before(all[k], all[l])
  {
  }

  ghost predicate LocalSelects(
    answers: seq<ResourceRecord>, r: ResponseRecord, name: Name, trust: Trust, at: seq<nat>, tagged: seq<Tagged<u32>>)
  {
    && Positions(at, |answers|) && |tagged| == |at|
    && (forall j :: j in at <==> 0 <= j < |answers| && Matches(answers[j], name))
    && forall k :: 0 <= k < |at| ==>
         Matches(answers[at[k]], name) && tagged[k] == TaggedAnswer(r, answers[at[k]], trust)
  }

  lemma StandSelects(
    answers: seq<ResourceRecord>, r: ResponseRecord, name: Name, trust: Trust, at: seq<nat>, tagged: seq<Tagged<u32>>)
    requires Stand(MatchVals(answers, name, PublisherChainKey(r, trust)), |answers|, at, tagged)
    ensures LocalSelects(answers, r, name, trust, at, tagged)
  {
  }

  lemma SelectsMore(
    rs: seq<ResponseRecord>, name: Name, trust: Trust, at: seq<(int, int)>, tagged: seq<Tagged<u32>>,
    local: seq<nat>, more: seq<Tagged<u32>>)
    requires rs != [] && Selects(rs[..|rs| - 1], name, trust, at, tagged)
    requires var r := rs[|rs| - 1];
             !Forged(r, trust) && LocalSelects(Answers(r), r, name, trust, local, more)
    ensures Selects(rs, name, trust, at + Of(|rs| - 1, local), tagged + more)
  {
    hide Forged, Answers, Matches, TaggedAnswer;
    var n := |rs| - 1;
    CountsMore(rs, name, trust, at, local);
    OrderedMore(at, n, local, |Answers(rs[n])|);
    assert forall k :: 0 <= k < |at| ==> rs[..n][at[k].0] == rs[at[k].0];
  }

  lemma SelectsSame(
    rs: seq<ResponseRecord>, name: Name, trust: Trust, at: seq<(int, int)>, tagged: seq<Tagged<u32>>)
    requires rs != [] && Selects(rs[..|rs| - 1], name, trust, at, tagged) && Forged(rs[|rs| - 1], trust)
    ensures Selects(rs, name, trust, at, tagged)
  {
    hide Forged, Answers, Matches, TaggedAnswer;
    forall p
      ensures p in at <==> Counts(rs, name, trust, p)
    {
      CountsLast(rs, name, trust, p);
    }
  }

  lemma {:induction false} CollectAt(rs: seq<ResponseRecord>, name: Name, trust: Trust)
    returns (at: seq<(int, int)>)
    requires MessagesParse(rs, trust)
    ensures var c := Collect(rs, name, trust);
            && c.Success? && c.value.rejected == |ForgedAt(rs, trust)|
            && Selects(rs, name, trust, at, c.value.tagged)
  {
    hide BePacket, TaggedAnswers, Selects, LocalSelects, Stand, Forged, ForgedAt, Accepted;
    if rs == [] {
      at := [];
      SelectsNothing(rs, name, trust);
    } else {
      var init, last := rs[..|rs| - 1], rs[|rs| - 1];
      assert forall i :: 0 <= i < |init| ==> init[i] == rs[i];
      at := CollectAt(init, name, trust);
      AcceptedIffNotForged(last, trust);
      ForgedLast(rs, trust);
      var tagged := Collect(init, name, trust).value.tagged;
      if Forged(last, trust) {
        SelectsSame(rs, name, trust, at, tagged);
      } else {
        var fallback := PublisherChainKey(last, trust);
        var local := MatchesAt(Answers(last), name, fallback);
        StandSelects(Answers(last), last, name, trust, local, TaggedAnswers(Answers(last), name, fallback));
        SelectsMore(rs, name, trust, at, tagged, local, TaggedAnswers(Answers(last), name, fallback));
        at := at + Of(|init|, local);
      }
    }
  }

  lemma SelectsNothing(rs: seq<ResponseRecord>, name: Name, trust: Trust)
    requires rs == []
    ensures Selects(rs, name, trust, [], []) && ForgedAt(rs, trust) == {}
  {
  }

  lemma CountOf(rs: seq<ResponseRecord>)
    requires |rs| < FIELD_LIMIT
    ensures |ResponseBytes(rs)| >= 4 && FromBE(ResponseBytes(rs)[..4]) == |rs|
  {
    hide RecordsBytes, BE, FromBE, Pow256;
    assert ResponseBytes(rs)[..4] == BE(|rs|, 4);
    Pow256Values();
    FromBEOfBE(|rs|, 4);
  }

  lemma DecodeCollected(rs: seq<ResponseRecord>, name: Name, trust: Trust)
    requires ResponseOk(rs) && |rs| <= 256
    ensures var c := Collect(rs, name, trust);
            DecodeCandidateGroups(name, ResponseBytes(rs), trust) ==
            if c.Fail? then Fail(c.error) else Success(Decoded(GroupsOf(c.value.tagged), c.value.rejected))
  {
    hide ResponseBytes, BeMultiResponse, Collect, GroupsOf, FromBE, RecordOk;
    var body := ResponseBytes(rs);
    CountOf(rs);
    RoundTrip(rs, []);
    assert body + [] == body;
  }

  /** Main result on decoding: of a response whose messages parse, the groups are those of exactly
      the E answers for the name, in order, in the records that are unsigned or verify; the others
      are counted as rejected. */
  lemma DecodesExactly(rs: seq<ResponseRecord>, name: Name, trust: Trust)
    returns (at: seq<(int, int)>, tagged: seq<Tagged<u32>>)
    requires ResponseOk(rs) && |rs| <= 256 && MessagesParse(rs, trust)
    ensures Selects(rs, name, trust, at, tagged)
    ensures DecodeCandidateGroups(name, ResponseBytes(rs), trust) ==
            Success(Decoded(GroupsOf(tagged), |ForgedAt(rs, trust)|))
  {
    hide Selects, ForgedAt, DecodeCandidateGroups, ResponseBytes, Collect, GroupsOf, ResponseOk;
    at := CollectAt(rs, name, trust);
    tagged := Collect(rs, name, trust).value.tagged;
    DecodeCollected(rs, name, trust);
  }

  lemma ForgedCountsNothing(
    r: ResponseRecord, name: Name, trust: Trust, at: seq<(int, int)>, tagged: seq<Tagged<u32>>)
    requires Selects([r], name, trust, at, tagged)
    ensures tagged != [] ==> !Forged(r, trust)
  {
    hide Answers, Matches, Parses, Forged;
    if tagged != [] {
      assert Counts([r], name, trust, at[0]);
    }
  }

  /** In particular, a forged record contributes nothing. */
  lemma ForgedRejected(r: ResponseRecord, name: Name, trust: Trust)
    requires RecordOk(r) && Forged(r, trust)
    ensures DecodeCandidateGroups(name, ResponseBytes([r]), trust) == Success(Decoded([], 1))
  {
    hide DecodeCandidateGroups, ResponseBytes, Answers, Matches, Parses, RecordOk;
    var at, tagged := DecodesExactly([r], name, trust);
    ForgedCountsNothing(r, name, trust, at, tagged);
    assert FirstKeys<u32>([]) == [];
    assert ForgedAt([r], trust) == {0};
  }

  /** Record `k` is the first that is accepted and does not parse. */
  ghost predicate StopsAt(rs: seq<ResponseRecord>, k: nat, trust: Trust) {
    k < |rs| && MessagesParse(rs[..k], trust) && !Forged(rs[k], trust) && !Parses(rs[k])
  }

  /** It decides the error of the whole, whatever follows. */
  lemma DecodeStops(rs: seq<ResponseRecord>, k: nat, name: Name, trust: Trust)
    requires ResponseOk(rs) && |rs| <= 256 && StopsAt(rs, k, trust)
    ensures DecodeCandidateGroups(name, ResponseBytes(rs), trust) ==
            Fail(if BePacket(rs[k].dns).Ok? then BadMultiResponse else ParseRecords)
  {
    hide DecodeCandidateGroups, ResponseBytes, BePacket, ResponseOk, TaggedAnswers, Forged, Accepted;
    var _ := CollectAt(rs[..k], name, trust);
    AcceptedIffNotForged(rs[k], trust);
    assert rs[..k + 1][..k] == rs[..k];
    CollectPrefix(rs, k + 1, name, trust);
    DecodeCollected(rs, name, trust);
  }

  /** A body that announces more than 256 records is refused, whatever it holds; so is one that is
      too short or does not end with its last record. */
  lemma DecodeRefuses(name: Name, body: Bytes, trust: Trust)
    ensures |body| >= 4 && FromBE(body[..4]) > 256 ==>
              DecodeCandidateGroups(name, body, trust) == Fail(TooManyRecords)
    ensures |body| < 4 ==> DecodeCandidateGroups(name, body, trust) == Fail(BadMultiResponse)
    ensures |body| >= 4 && FromBE(body[..4]) <= 256 && (!BeMultiResponse(body).Ok? || BeMultiResponse(body).rest != [])
            ==> DecodeCandidateGroups(name, body, trust) == Fail(BadMultiResponse)
  {
    hide FromBE, BeMultiResponse, Collect, GroupsOf;
  }
}
