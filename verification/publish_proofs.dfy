/** What is published is what a lookup decodes. */
module PublishProofs {
  import opened Bytes
  import opened Names
  import opened Certificate
  import opened Endpoint
  import opened Packet
  import opened MultiResponse
  import opened Grouping
  import opened Publish
  import opened PacketProofs
  import EndpointProofs
  import NameCodec
  import NameRoundTrip

  function StripAll(endpoints: seq<Address>): (r: seq<Address>)
    ensures |r| == |endpoints|
    ensures AllConvertible(endpoints) ==> AllConvertible(r)
  {
    seq(|endpoints|, i requires 0 <= i < |endpoints| => StripAddress(endpoints[i]))
  }

  /** Nothing is stripped exactly if no address has flow information or a scope. */
  lemma StripAllIff(endpoints: seq<Address>)
    ensures StripAll(endpoints) == endpoints <==>
            forall i :: 0 <= i < |endpoints| ==> WritableAddress(endpoints[i])
  {
    forall i | 0 <= i < |endpoints|
      ensures StripAll(endpoints)[i] == endpoints[i] <==> WritableAddress(endpoints[i])
    {
      EndpointProofs.StrippedIffWritable(endpoints[i]);
    }
  }

  lemma PublishedOk(a: Address, sequence: Sequence)
    requires Convertible(a)
    ensures Convertible(StripAddress(a))
    ensures var e := Published(a, sequence);
            && Decodable(e) && |EndpointBytes(e)| <= 45
            && ToAddress(e) == Some(a) && Stripped(e) == Published(StripAddress(a), sequence)
            && e.CertificateChainKey() == ChainKey(sequence, true)
            && e.flags.main
  {
    var e := Published(a, sequence);
    EndpointProofs.SizeIsLength(e);
  }

  function PublishedPacket(name: Name, endpoints: seq<Address>, sequence: Sequence): Packet
    requires AllConvertible(endpoints)
  {
    AnswerPacket(0, AnswerRecords(name, PublishedAll(endpoints, sequence)))
  }

  lemma {:induction false} NormalAnswers(name: Name, endpoints: seq<Address>, sequence: Sequence)
    requires AllConvertible(endpoints)
    ensures NormalRecords(AnswerRecords(name, PublishedAll(endpoints, sequence))) ==
            AnswerRecords(Normal(name), PublishedAll(StripAll(endpoints), sequence))
  {
    hide Normal, Published, Convertible;
    if endpoints != [] {
      var tail := endpoints[1..];
      NormalAnswers(name, tail, sequence);
      PublishedOk(endpoints[0], sequence);
      AnswersTail(name, endpoints, sequence);
      assert StripAll(endpoints)[1..] == StripAll(tail);
      AnswersTail(Normal(name), StripAll(endpoints), sequence);
    }
  }

  lemma AnswersTail(name: Name, endpoints: seq<Address>, sequence: Sequence)
    requires endpoints != [] && AllConvertible(endpoints)
    ensures AllConvertible(endpoints[1..])
    ensures AnswerRecords(name, PublishedAll(endpoints, sequence)) ==
            [AnswerRecord(name, Published(endpoints[0], sequence))] +
            AnswerRecords(name, PublishedAll(endpoints[1..], sequence))
  {
    hide Published, Convertible;
  }

  lemma AnswersOk(name: Name, endpoints: seq<Address>, sequence: Sequence)
    requires NameOk(name) && AllConvertible(endpoints)
    ensures RecordsOk(AnswerRecords(name, PublishedAll(endpoints, sequence)))
  {
    hide NameOk, Decodable, EndpointBytes, Published;
    var answers := AnswerRecords(name, PublishedAll(endpoints, sequence));
    forall i | 0 <= i < |answers|
      ensures PacketProofs.RecordOk(answers[i])
    {
      PublishedOk(endpoints[i], sequence);
    }
  }

  /** The published message reads back with its name in normal form and its addresses stripped,
      unless its count wraps around: then some of it is left over. */
  lemma PublishedPacketReads(name: Name, endpoints: seq<Address>, sequence: Sequence)
    requires NameOk(name) && AllConvertible(endpoints)
    ensures var r := BePacket(PacketBytes(PublishedPacket(name, endpoints, sequence)));
            && r.Ok? && (r.rest == [] <==> |endpoints| < 0x1_0000)
            && (r.rest == [] ==> r.value == PublishedPacket(Normal(name), StripAll(endpoints), sequence))
  {
    hide Normal, BePacket, PacketBytes, RecordsOk, AnswerRecords, PublishedAll;
    var p := PublishedPacket(name, endpoints, sequence);
    assert RecordsOk(p.answers) by { AnswersOk(name, endpoints, sequence); }
    NormalAnswers(name, endpoints, sequence);
    CountedAnswersRead(p, |p.answers| % 0x1_0000);
    assert p.answers[..|p.answers|] == p.answers;
  }

  /** The answers to a list of hosts are those of the first ones, then those of the others. */
  lemma {:induction false} HostRecordsConcat(a: seq<(Name, seq<Endpoint>)>, b: seq<(Name, seq<Endpoint>)>)
    ensures HostRecords(a + b) == HostRecords(a) + HostRecords(b)
    decreases |b|
  {
    hide AnswerRecords;
    if b == [] {
      assert a + b == a;
    } else {
      HostRecordsConcat(a, b[..|b| - 1]);
      assert (a + b)[..|a + b| - 1] == a + b[..|b| - 1];
    }
  }

  /** The answer to one endpoint of a host, and to a host. */
  lemma HostAnswers(name: Name, es: seq<Endpoint>)
    ensures HostRecords([(name, es)]) == AnswerRecords(name, es)
    ensures forall i :: 0 <= i < |es| ==>
              AnswerRecords(name, es)[i] == ResourceRecord(name, TypeE, false, IN, 300, E(es[i]))
  {
    assert [(name, es)][..0] == [];
  }

  /** What a reader makes of the answer to a list of hosts: the id of the query, the response flag,
      every answer counted, and the answers in order with their names in normal form. */
  lemma AnswerReads(id: u16, hosts: seq<(Name, seq<Endpoint>)>)
    requires RecordsOk(HostRecords(hosts)) && |HostRecords(hosts)| < 0x1_0000
    ensures var n := |HostRecords(hosts)|;
            BePacket(PacketBytes(AnswerPacket(id, HostRecords(hosts)))) ==
            Ok([], Packet(Header(id, 0x8000, 0, n, 0, 0), [], NormalRecords(HostRecords(hosts)), [], []))
  {
    hide BePacket, PacketBytes, RecordsOk, NormalRecords, HostRecords;
    var records := HostRecords(hosts);
    CountedAnswersRead(AnswerPacket(id, records), |records|);
    assert records[..|records|] == records;
  }

  function TaggedAll(es: seq<Endpoint>, fallback: Option<ChainKey>): (r: seq<Tagged<u32>>)
    ensures |r| == |es|
  {
    seq(|es|, i requires 0 <= i < |es| => Tagged(ANSWER_TTL, es[i], fallback))
  }

  lemma AnswersInit(name: Name, es: seq<Endpoint>, fallback: Option<ChainKey>)
    requires es != []
    ensures var init, last := es[..|es| - 1], es[|es| - 1];
            && AnswerRecords(name, es)[..|es| - 1] == AnswerRecords(name, init)
            && AnswerRecords(name, es)[|es| - 1] == AnswerRecord(name, last)
            && TaggedAll(es, fallback) == TaggedAll(init, fallback) + [Tagged(ANSWER_TTL, last, fallback)]
  {
    hide AnswerRecord;
  }

  lemma {:induction false} AnswersTagged(name: Name, es: seq<Endpoint>, query: Name, fallback: Option<ChainKey>)
    ensures TaggedAnswers(AnswerRecords(name, es), query, fallback) ==
            if query == name then TaggedAll(es, fallback) else []
  {
    if es != [] {
      hide AnswerRecords, TaggedAll;
      AnswersTagged(name, es[..|es| - 1], query, fallback);
      AnswersInit(name, es, fallback);
    }
  }

  function Members(endpoints: seq<Address>): (r: seq<(u32, Address)>)
    ensures |r| == |endpoints|
  {
    seq(|endpoints|, i requires 0 <= i < |endpoints| => (300, endpoints[i]))
  }

  lemma PublishedKept(a: Address, sequence: Sequence, fallback: Option<ChainKey>)
    requires Convertible(a)
    ensures var t := Tagged(ANSWER_TTL, Published(a, sequence), fallback);
            Kept(t) && KeyOf(t) == ChainKey(sequence, true) && Member(t) == (ANSWER_TTL, a)
  {
    PublishedOk(a, sequence);
  }

  /** Records of one chain make one group, in order. */
  lemma {:induction false} OneGroup(endpoints: seq<Address>, sequence: Sequence, fallback: Option<ChainKey>)
    requires AllConvertible(endpoints)
    ensures var tagged := TaggedAll(PublishedAll(endpoints, sequence), fallback);
            var key := ChainKey(sequence, true);
            && MembersOf(tagged, key) == Members(endpoints)
            && FirstKeys(tagged) == if endpoints == [] then [] else [key]
  {
    hide Published, Convertible, Kept, KeyOf, Member, TaggedAll, PublishedAll, Members;
    if endpoints == [] {
      PublishedInit(endpoints, sequence, fallback);
    } else {
      var init, last := endpoints[..|endpoints| - 1], endpoints[|endpoints| - 1];
      OneGroup(init, sequence, fallback);
      PublishedKept(last, sequence, fallback);
      PublishedInit(endpoints, sequence, fallback);
    }
  }

  lemma PublishedInit(endpoints: seq<Address>, sequence: Sequence, fallback: Option<ChainKey>)
    requires AllConvertible(endpoints)
    ensures var tagged := TaggedAll(PublishedAll(endpoints, sequence), fallback);
            if endpoints == [] then tagged == [] && Members(endpoints) == []
            else
              var init, last := endpoints[..|endpoints| - 1], endpoints[|endpoints| - 1];
              && tagged[..|tagged| - 1] == TaggedAll(PublishedAll(init, sequence), fallback)
              && tagged[|tagged| - 1] == Tagged(ANSWER_TTL, Published(last, sequence), fallback)
              && Members(endpoints) == Members(init) + [(ANSWER_TTL, last)]
  {
    hide Published;
  }

  /** A legacy record carries no mark of its own: it is grouped under the chain its publisher's
      certificate names, and under none that is kept if the certificate names none. */
  lemma LegacyTakesPublisherChain(b: Bytes, key: ChainKey)
    requires |b| in LEGACY_LENGTHS && EndpointProofs.ModernLength(b) != Some(|b|)
    ensures var r := BeCompat(b, |b|);
            && r.Ok? && r.rest == [] && ToAddress(r.value).Some?
            && EffectiveChainKey(r.value, Some(key)) == key
            && EffectiveChainKey(r.value, None) == ChainKey(0, false)
  {
    hide BeCompat, EndpointProofs.ModernLength, BeSocketAddr;
    EndpointProofs.LegacyIffNotModern(b);
  }

  /** Whose endpoint a signed address is: server 0 is primary, every other one secondary. */
  lemma SignedChain(a: Address, serverId: byte, signing: Option<Option<Signature>>)
    requires Convertible(a)
    ensures var e := Signed(a, serverId, signing);
            && e.CertificateChainKey() == ChainKey(serverId, serverId == 0)
            && ToAddress(e) == Some(a) && e.load.None?
            && e.flags.signed == signing.Some?
            && e.signature == if signing.Some? then signing.value else None
  {
  }

  /** Flags and fields agree after signing exactly if the signer did not fail. */
  lemma SignedAgrees(a: Address, serverId: byte, signing: Option<Option<Signature>>)
    requires Convertible(a)
    ensures BaseAgrees(Signed(a, serverId, signing))
    ensures FlagsAgree(Signed(a, serverId, signing)) <==> signing != Some(None)
  {
  }

  /** What a failed signing leaves is unfinished: no reader gets past it. */
  lemma FailedSigningUnfinished(name: Name, a: Address, serverId: byte)
    requires NameOk(name) && Convertible(a)
    ensures Unfinished(AnswerRecord(name, Signed(a, serverId, Some(None))))
    ensures BeEndpoint(EndpointBytes(Signed(a, serverId, Some(None)))) == Incomplete
  {
    hide EndpointBytes, BeEndpoint, NameOk;
    var e := Signed(a, serverId, Some(None));
    EndpointProofs.SizeIsLength(e);
    EndpointProofs.MissingSignatureIncomplete(e);
  }

  /** A message whose answer `k` could not be signed is rejected as a whole. */
  lemma FailedSigningRejected(
    name: Name, hosts: seq<Endpoint>, k: nat, a: Address, serverId: byte, trust: Trust, query: Name)
    requires NameOk(name) && Convertible(a) && k < |hosts| < 0x1_0000
    requires hosts[k] == Signed(a, serverId, Some(None))
    requires RecordsOk(AnswerRecords(name, hosts)[..k])
    requires var dns := PacketBytes(AnswerPacket(0, AnswerRecords(name, hosts)));
             MultiResponse.RecordOk(ResponseRecord(SignatureFields([], [], []), dns, []))
    ensures var dns := PacketBytes(AnswerPacket(0, AnswerRecords(name, hosts)));
            var body := ResponseBytes([ResponseRecord(SignatureFields([], [], []), dns, [])]);
            DecodeCandidateGroups(query, body, trust) == Fail(BadMultiResponse)
  {
    hide PacketBytes, ResponseBytes, BePacket, TaggedAnswers, DecodeCandidateGroups, AnswerRecord;
    hide MultiResponse.RecordOk, RecordsOk, Unfinished, Signed, NameOk, GroupsOf;
    var p := AnswerPacket(0, AnswerRecords(name, hosts));
    var r := ResponseRecord(SignatureFields([], [], []), PacketBytes(p), []);
    FailedSigningUnfinished(name, a, serverId);
    UnfinishedCutsMessage(p, k);
    DecodeSingle(r, query, trust);
  }

  lemma CountOfOne(r: ResponseRecord)
    ensures |ResponseBytes([r])| >= 4 && FromBE(ResponseBytes([r])[..4]) == 1
  {
    hide RecordsBytes;
    assert ResponseBytes([r])[..4] == BE(1, 4);
    Pow256Values();
    FromBEOfBE(1, 4);
  }

  /** The one group of a published list, if the lookup matches and there is anything in it. */
  function Expected(endpoints: seq<Address>, sequence: Sequence, matches: bool): seq<Group<u32>> {
    if matches && endpoints != [] then [Group(ChainKey(sequence, true), Members(endpoints))] else []
  }

  lemma OneGroupSeq(endpoints: seq<Address>, sequence: Sequence, fallback: Option<ChainKey>, matches: bool)
    requires AllConvertible(endpoints)
    ensures GroupsOf(if matches then TaggedAll(PublishedAll(endpoints, sequence), fallback) else []) ==
            Expected(endpoints, sequence, matches)
  {
    hide MembersOf, Convertible, TaggedAll, PublishedAll, Members;
    OneGroup(endpoints, sequence, fallback);
    assert FirstKeys<u32>([]) == [];
  }

  /** Publish, then look up: what a primary authority publishes under its name, in a record that
      is unsigned or verifies, decodes to one group, keyed by the sequence of the authority, with
      the endpoints in publish order, less flow information and scope, for a lookup of the normal
      form of that name; a lookup of any other spelling decodes to nothing. It fails exactly if
      the answer count wrapped. */
  lemma PublishThenLookup(
    name: Name, endpoints: seq<Address>, sequence: Sequence, fields: SignatureFields, cert: Bytes, trust: Trust,
    query: Name)
    requires NameOk(name) && AllConvertible(endpoints)
    requires var dns := PacketBytes(PublishedPacket(name, endpoints, sequence));
             var r := ResponseRecord(fields, dns, cert);
             MultiResponse.RecordOk(r) && Accepted(r, trust)
    ensures var dns := PacketBytes(PublishedPacket(name, endpoints, sequence));
            DecodeCandidateGroups(query, ResponseBytes([ResponseRecord(fields, dns, cert)]), trust) ==
            if |endpoints| >= 0x1_0000 then Fail(BadMultiResponse)
            else Success(Decoded(Expected(StripAll(endpoints), sequence, query == Normal(name)), 0))
  {
    hide PacketBytes, ResponseBytes, BePacket, TaggedAnswers, DecodeCandidateGroups, MembersOf, FirstKeys;
    hide MultiResponse.RecordOk, Normal, GroupsOf, Expected, Members, TaggedAll, PublishedAll;
    var found := StripAll(endpoints);
    var r := ResponseRecord(fields, PacketBytes(PublishedPacket(name, endpoints, sequence)), cert);
    PublishedPacketReads(name, endpoints, sequence);
    var fallback := PublisherChainKey(r, trust);
    AnswersTagged(Normal(name), PublishedAll(found, sequence), query, fallback);
    OneGroupSeq(found, sequence, fallback, query == Normal(name));
    DecodeSingle(r, query, trust);
  }

  /** Decoding a response of one accepted record whose message parses. */
  lemma DecodeSingle(r: ResponseRecord, name: Name, trust: Trust)
    requires MultiResponse.RecordOk(r) && Accepted(r, trust) && BePacket(r.dns).Ok?
    ensures var p := BePacket(r.dns);
            var tagged := TaggedAnswers(p.value.answers, name, PublisherChainKey(r, trust));
            DecodeCandidateGroups(name, ResponseBytes([r]), trust) ==
            if p.rest == [] then Success(Decoded(GroupsOf(tagged), 0)) else Fail(BadMultiResponse)
  {
    hide ResponseBytes, BeMultiResponse, BePacket, TaggedAnswers, FromBE, MultiResponse.RecordOk, GroupsOf, Collect;
    var body := ResponseBytes([r]);
    RoundTrip([r], []);
    assert body + [] == body;
    CountOfOne(r);
    CollectSingle(r, name, trust);
  }

  lemma CollectSingle(r: ResponseRecord, name: Name, trust: Trust)
    requires Accepted(r, trust) && BePacket(r.dns).Ok?
    ensures var p := BePacket(r.dns);
            var tagged := TaggedAnswers(p.value.answers, name, PublisherChainKey(r, trust));
            Collect([r], name, trust) == if p.rest == [] then Success(Collected(tagged, 0)) else Fail(BadMultiResponse)
  {
    hide BePacket, TaggedAnswers;
    assert [r][..0] == [];
    var tagged := TaggedAnswers(BePacket(r.dns).value.answers, name, PublisherChainKey(r, trust));
    assert [] + tagged == tagged;
  }

  lemma AnswerLength(st: NameCodec.Encoded, name: Name, e: Endpoint)
    requires |EndpointBytes(e)| <= 45
    ensures |PutItem(st, Known(AnswerRecord(name, e))).bytes| <= |st.bytes| + |Join(Labels(name))| + 57
  {
    hide EndpointBytes, NameCodec.EncodeLabels, BE, Labels, Join;
    NameRoundTrip.EncodedLength(|st.bytes|, Labels(name), st.ctx);
  }

  /** A published message is no longer than its records allow. */
  lemma {:induction false} AnswersLength(st: NameCodec.Encoded, name: Name, es: seq<Endpoint>)
    requires forall i :: 0 <= i < |es| ==> |EndpointBytes(es[i])| <= 45
    ensures |PutItems(st, AllKnown(AnswerRecords(name, es))).bytes| <=
            |st.bytes| + |es| * (|Join(Labels(name))| + 57)
    decreases |es|
  {
    hide EndpointBytes, PutItem, Labels, Join, AnswerRecord;
    if es != [] {
      var items, each := AllKnown(AnswerRecords(name, es)), |Join(Labels(name))| + 57;
      assert items[1..] == AllKnown(AnswerRecords(name, es[1..]));
      var st1 := PutItem(st, items[0]);
      AnswerLength(st, name, es[0]);
      AnswersLength(st1, name, es[1..]);
      assert |es| * each == (|es| - 1) * each + each;
    }
  }

  /** An authority that publishes as "a." is found as "a" and not as "a.". */
  lemma OtherSpellingExample(trust: Trust)
    ensures var host := Direct(V4([10, 0, 0, 1], 4433));
            var dns := PacketBytes(PublishedPacket([97, DOT], [host], 0));
            var body := ResponseBytes([ResponseRecord(SignatureFields([], [], []), dns, [])]);
            && DecodeCandidateGroups([97], body, trust) ==
               Success(Decoded([Group(ChainKey(0, true), [(300, host)])], 0))
            && DecodeCandidateGroups([97, DOT], body, trust) == Success(Decoded([], 0))
  {
    hide PacketBytes, DecodeCandidateGroups, ResponseBytes;
    var name: Name, host := [97, DOT], Direct(V4([10, 0, 0, 1], 4433));
    SpelledNormal();
    assert StripAll([host]) == [host];
    SmallMessage(name, host);
    PublishThenLookup(name, [host], 0, SignatureFields([], [], []), [], trust, [97]);
    PublishThenLookup(name, [host], 0, SignatureFields([], [], []), [], trust, name);
    assert Members([host]) == [(300, host)];
  }

  lemma SpelledNormal()
    ensures Labels([97, DOT]) == [[97]] && Normal([97, DOT]) == [97] && NameOk([97, DOT])
  {
    LabelsTrailingDot([97]);
    assert [97] + [DOT] == [97, DOT];
    LabelsOfJoin([[97]]);
  }

  lemma SmallMessage(name: Name, host: Address)
    requires Labels(name) == [[97]] && Convertible(host)
    ensures |PacketBytes(PublishedPacket(name, [host], 0))| < FIELD_LIMIT
  {
    PublishedLength(name, [host], 0);
  }

  lemma PublishedLength(name: Name, endpoints: seq<Address>, sequence: Sequence)
    requires AllConvertible(endpoints)
    ensures |PacketBytes(PublishedPacket(name, endpoints, sequence))| <=
            12 + |endpoints| * (|Join(Labels(name))| + 57)
  {
    hide PutItems, HeaderBytes, Published, EndpointBytes, Labels, Join, PacketBytes;
    forall i | 0 <= i < |endpoints|
      ensures |EndpointBytes(Published(endpoints[i], sequence))| <= 45
    {
      PublishedOk(endpoints[i], sequence);
    }
    var p := PublishedPacket(name, endpoints, sequence);
    AnswersOnlyBytes(p, |endpoints| % 0x1_0000);
    AnswersLength(NameCodec.Encoded(HeaderBytes(p.header), map[]), name, PublishedAll(endpoints, sequence));
  }

  /** A single endpoint whose signing failed, published as "a", is not found. */
  lemma FailedSigningExample(trust: Trust, a: Address)
    requires Convertible(a)
    ensures var dns := PacketBytes(AnswerPacket(0, AnswerRecords([97], [Signed(a, 0, Some(None))])));
            var body := ResponseBytes([ResponseRecord(SignatureFields([], [], []), dns, [])]);
            DecodeCandidateGroups([97], body, trust) == Fail(BadMultiResponse)
  {
    hide PacketBytes, DecodeCandidateGroups, ResponseBytes, Labels, Signed, EndpointBytes, HeaderBytes, PutItems;
    var e := Signed(a, 0, Some(None));
    var p := AnswerPacket(0, AnswerRecords([97], [e]));
    assert Labels([97]) == [[97]] by { LabelsOfJoin([[97]]); }
    SignedLength(a, 0);
    AnswersOnlyBytes(p, 1);
    AnswersLength(NameCodec.Encoded(HeaderBytes(p.header), map[]), [97], [e]);
    FailedSigningRejected([97], [e], 0, a, 0, trust, [97]);
  }

  lemma SignedLength(a: Address, serverId: byte)
    requires Convertible(a)
    ensures |EndpointBytes(Signed(a, serverId, Some(None)))| <= 45
  {
    EndpointProofs.SizeIsLength(Signed(a, serverId, Some(None)));
  }

  /** An authority with 65536 endpoints is not found at all. */
  lemma WrappedCountExample(trust: Trust, host: Address)
    requires Convertible(host)
    ensures var dns := PacketBytes(PublishedPacket([97], seq(0x1_0000, _ => host), 0));
            var body := ResponseBytes([ResponseRecord(SignatureFields([], [], []), dns, [])]);
            DecodeCandidateGroups([97], body, trust) == Fail(BadMultiResponse)
  {
    hide PacketBytes, DecodeCandidateGroups, ResponseBytes, Labels;
    var endpoints := seq(0x1_0000, _ => host);
    assert Labels([97]) == [[97]] by { LabelsOfJoin([[97]]); }
    PublishedLength([97], endpoints, 0);
    PublishThenLookup([97], endpoints, 0, SignatureFields([], [], []), [], trust, [97]);
  }
}
