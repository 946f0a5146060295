/** Publishing the endpoints of an authority, and decoding what a lookup returns. */
module Publish {
  import opened Bytes
  import opened Names
  import opened Certificate
  import opened Endpoint
  import opened Packet
  import opened MultiResponse
  import opened Grouping

  /** `chain` is the key named by the certificate, or nothing when it names none. */
  datatype Authority = Authority(name: Name, chain: Option<ChainKey>)

  datatype PublishError = AuthorityNameMismatch | NoSubjectKeyIdentifier | EncodeEndpoint | SecondaryAuthority

  datatype DecodeError = TooManyRecords | BadMultiResponse | ParseRecords

  datatype Result<+T, +E> = Success(value: T) | Fail(error: E)

  const ANSWER_TTL: u32 := 300
  const RESPONSE_FLAG: u16 := 0x8000
  const MAX_RESPONSE_RECORDS := 256

  predicate Convertible(a: Address) {
    FromAddress(a).Some?
  }

  function Published(a: Address, sequence: Sequence): Endpoint
    requires Convertible(a)
  {
    WithSequence(WithMain(FromAddress(a).value, true), sequence)
  }

  predicate AllConvertible(endpoints: seq<Address>) {
    forall i :: 0 <= i < |endpoints| ==> Convertible(endpoints[i])
  }

  function PublishedAll(endpoints: seq<Address>, sequence: Sequence): (r: seq<Endpoint>)
    requires AllConvertible(endpoints)
    ensures |r| == |endpoints|
  {
    seq(|endpoints|, i requires 0 <= i < |endpoints| => Published(endpoints[i], sequence))
  }

  method BuildEndpoint(a: Address) returns (e: EndpointAddr)
    requires Convertible(a)
    ensures fresh(e) && e.Value() == FromAddress(a).value
  {
    if a.Direct? {
      e := new EndpointAddr.Direct(a.addr);
    } else {
      e := new EndpointAddr.Nat(a.outer, a.agentAddr);
    }
  }

  /** Every endpoint is marked primary and carries the sequence of the authority; the first one
      that does not convert fails the whole list, and so does a secondary authority. */
  method DnsEndpointsForAuthority(authority: Authority, name: Name, endpoints: seq<Address>)
    returns (r: Result<seq<Endpoint>, PublishError>)
    ensures r ==
            if authority.name != name then Fail(AuthorityNameMismatch)
            else if authority.chain.None? then Fail(NoSubjectKeyIdentifier)
            else if !AllConvertible(endpoints) then Fail(EncodeEndpoint)
            else if endpoints != [] && !authority.chain.value.primary then Fail(SecondaryAuthority)
            else Success(PublishedAll(endpoints, authority.chain.value.sequence))
  {
    if authority.name != name {
      return Fail(AuthorityNameMismatch);
    }
    if authority.chain.None? {
      return Fail(NoSubjectKeyIdentifier);
    }
    var chain := authority.chain.value;
    var encoded: seq<Endpoint> := [];
    for i := 0 to |endpoints|
      invariant AllConvertible(endpoints[..i])
      invariant encoded == PublishedAll(endpoints[..i], chain.sequence)
    {
      if FromAddress(endpoints[i]).None? {
        assert !Convertible(endpoints[i]);
        return Fail(EncodeEndpoint);
      }
      var endpoint := BuildEndpoint(endpoints[i]);
      endpoint.SetMain(true);
      endpoint.SetSequence(chain.sequence);
      encoded := encoded + [endpoint.Value()];
    }
    assert endpoints[..|endpoints|] == endpoints;
    if encoded != [] && !chain.primary {
      return Fail(SecondaryAuthority);
    }
    return Success(encoded);
  }

  /** What an endpoint becomes with a signing authority; `signing` is what that returns, and an
      error of the signer is ignored. */
  function Signed(a: Address, serverId: byte, signing: Option<Option<Signature>>): Endpoint
    requires Convertible(a)
  {
    var e := WithSequence(WithMain(FromAddress(a).value, serverId == 0), serverId);
    if signing.Some? then WithSignature(e, signing.value) else e
  }

  method SignEndpointAddress(serverId: byte, signing: Option<Option<Signature>>, a: Address)
    returns (r: Option<Endpoint>)
    ensures r == if Convertible(a) then Some(Signed(a, serverId, signing)) else None
  {
    hide FromAddress, WithSequence, WithMain, WithSignature;
    if FromAddress(a).None? {
      return None;
    }
    var endpoint := BuildEndpoint(a);
    endpoint.SetMain(serverId == 0);
    endpoint.SetSequence(serverId);
    if signing.Some? {
      endpoint.SignWithAuthority(signing.value);
    }
    return Some(endpoint.Value());
  }

  function AnswerRecord(name: Name, e: Endpoint): ResourceRecord {
    ResourceRecord(name, TypeE, false, IN, ANSWER_TTL, E(e))
  }

  function AnswerRecords(name: Name, es: seq<Endpoint>): (r: seq<ResourceRecord>)
    ensures |r| == |es|
  {
    seq(|es|, i requires 0 <= i < |es| => AnswerRecord(name, es[i]))
  }

  /** The answers for a list of hosts, in the order the hosts are visited. */
  function HostRecords(hosts: seq<(Name, seq<Endpoint>)>): seq<ResourceRecord> {
    if hosts == [] then []
    else HostRecords(hosts[..|hosts| - 1]) + AnswerRecords(hosts[|hosts| - 1].0, hosts[|hosts| - 1].1)
  }

  /** The answer count is 16 bits wide and wraps around. */
  function AnswerPacket(id: u16, records: seq<ResourceRecord>): Packet {
    Packet(Header(id, RESPONSE_FLAG, 0, |records| % 0x1_0000, 0, 0), [], records, [], [])
  }

  /** Counts and marks the message as a response, once per answer. */
  function AddAnswer(p: Packet, name: Name, e: Endpoint): Packet {
    var flags := if p.header.flags < RESPONSE_FLAG then p.header.flags + RESPONSE_FLAG else p.header.flags;
    p.(header := p.header.(flags := flags, answers := (p.header.answers + 1) % 0x1_0000),
       answers := p.answers + [AnswerRecord(name, e)])
  }

  method Answer(id: u16, hosts: seq<(Name, seq<Endpoint>)>) returns (p: Packet)
    ensures p == AnswerPacket(id, HostRecords(hosts))
  {
    p := Packet(Header(id, RESPONSE_FLAG, 0, 0, 0, 0), [], [], [], []);
    for i := 0 to |hosts|
      invariant p == AnswerPacket(id, HostRecords(hosts[..i]))
    {
      assert hosts[..i + 1][..i] == hosts[..i];
      ghost var before := HostRecords(hosts[..i]);
      var (name, es) := hosts[i];
      for j := 0 to |es|
        invariant p == AnswerPacket(id, before + AnswerRecords(name, es[..j]))
      {
        ghost var done, record := AnswerRecords(name, es[..j]), AnswerRecord(name, es[j]);
        AddedAnswer(id, before + done, name, es[j]);
        p := AddAnswer(p, name, es[j]);
        assert AnswerRecords(name, es[..j + 1]) == done + [record];
        assert before + done + [record] == before + (done + [record]);
      }
      assert es[..|es|] == es;
    }
    assert hosts[..|hosts|] == hosts;
  }

  lemma AddedAnswer(id: u16, records: seq<ResourceRecord>, name: Name, e: Endpoint)
    ensures AddAnswer(AnswerPacket(id, records), name, e) == AnswerPacket(id, records + [AnswerRecord(name, e)])
  {
    assert (|records| % 0x1_0000 + 1) % 0x1_0000 == (|records| + 1) % 0x1_0000;
  }

  /** The message an authority publishes for its name. */
  method DnsPacketForAuthority(authority: Authority, name: Name, endpoints: seq<Address>)
    returns (r: Result<Bytes, PublishError>)
    ensures r.Success? <==>
            && authority.name == name && authority.chain.Some? && AllConvertible(endpoints)
            && (endpoints == [] || authority.chain.value.primary)
    ensures r.Success? ==>
              var published := PublishedAll(endpoints, authority.chain.value.sequence);
              r.value == PacketBytes(AnswerPacket(0, AnswerRecords(name, published)))
  {
    var encoded := DnsEndpointsForAuthority(authority, name, endpoints);
    if encoded.Fail? {
      return Fail(encoded.error);
    }
    var hosts := [(name, encoded.value)];
    assert HostRecords(hosts[..0]) == [];
    assert HostRecords(hosts) == AnswerRecords(name, encoded.value);
    var packet := Answer(0, hosts);
    var message := ToBytes(packet);
    return Success(message);
  }

  // ------------------------------------------------------------------------------------------
  // Decoding a response body

  /** What the decoder asks of code outside the model: the chain a certificate names, and
      whether the signature fields of a record verify. */
  datatype Trust = Trust(chainOf: Bytes -> Option<ChainKey>, verify: (SignatureFields, Bytes, Bytes) -> bool)

  predicate Unsigned(f: SignatureFields) {
    f.contentDigest == [] && f.signatureInput == [] && f.signature == []
  }

  predicate Accepted(r: ResponseRecord, trust: Trust) {
    Unsigned(r.signatureFields) || trust.verify(r.signatureFields, r.dns, r.cert)
  }

  function PublisherChainKey(r: ResponseRecord, trust: Trust): Option<ChainKey> {
    if r.cert == [] then None else trust.chainOf(r.cert)
  }

  /** The E answers of a message for this very name. */
  function TaggedAnswers(answers: seq<ResourceRecord>, name: Name, fallback: Option<ChainKey>): seq<Tagged<u32>> {
    if answers == [] then []
    else
      var last := answers[|answers| - 1];
      TaggedAnswers(answers[..|answers| - 1], name, fallback) +
      if last.data.E? && last.name == name then [Tagged(last.ttl, last.data.endpoint, fallback)] else []
  }

  datatype Collected = Collected(tagged: seq<Tagged<u32>>, rejected: nat)

  function CollectOne(c: Collected, r: ResponseRecord, name: Name, trust: Trust): Result<Collected, DecodeError> {
    if !Accepted(r, trust) then Success(Collected(c.tagged, c.rejected + 1))
    else
      var packet := BePacket(r.dns);
      if !packet.Ok? then Fail(ParseRecords)
      else if packet.rest != [] then Fail(BadMultiResponse)
      else
        var tagged := TaggedAnswers(packet.value.answers, name, PublisherChainKey(r, trust));
        Success(Collected(c.tagged + tagged, c.rejected))
  }

  function Collect(rs: seq<ResponseRecord>, name: Name, trust: Trust): Result<Collected, DecodeError> {
    if rs == [] then Success(Collected([], 0))
    else
      var before := Collect(rs[..|rs| - 1], name, trust);
      if before.Fail? then before else CollectOne(before.value, rs[|rs| - 1], name, trust)
  }

  datatype Decoded = Decoded(groups: seq<Group<u32>>, rejected: nat)

  function DecodeCandidateGroups(name: Name, body: Bytes, trust: Trust): Result<Decoded, DecodeError> {
    if |body| < 4 then Fail(BadMultiResponse)
    else if FromBE(body[..4]) > MAX_RESPONSE_RECORDS then Fail(TooManyRecords)
    else
      var multi := BeMultiResponse(body);
      if !multi.Ok? || multi.rest != [] then Fail(BadMultiResponse)
      else
        var c := Collect(multi.value, name, trust);
        if c.Fail? then Fail(c.error) else Success(Decoded(GroupsOf(c.value.tagged), c.value.rejected))
  }

  /** The loop of the program over the records of a response. */
  method CollectLoop(rs: seq<ResponseRecord>, name: Name, trust: Trust)
    returns (r: Result<Collected, DecodeError>)
    ensures r == Collect(rs, name, trust)
  {
    hide BePacket, TaggedAnswers;
    var rejected := 0;
    var endpoints: seq<Tagged<u32>> := [];
    for i := 0 to |rs|
      invariant Collect(rs[..i], name, trust) == Success(Collected(endpoints, rejected))
    {
      assert rs[..i + 1][..i] == rs[..i];
      CollectPrefix(rs, i + 1, name, trust);
      var response := rs[i];
      if !Unsigned(response.signatureFields) && !trust.verify(response.signatureFields, response.dns, response.cert) {
        rejected := rejected + 1;
        continue;
      }
      var packet := BePacket(response.dns);
      if !packet.Ok? {
        return Fail(ParseRecords);
      }
      if packet.rest != [] {
        return Fail(BadMultiResponse);
      }
      endpoints := endpoints + TaggedAnswers(packet.value.answers, name, PublisherChainKey(response, trust));
    }
    assert rs[..|rs|] == rs;
    return Success(Collected(endpoints, rejected));
  }

  /** The first failure is the failure of the whole. */
  lemma {:induction false} CollectPrefix(rs: seq<ResponseRecord>, i: nat, name: Name, trust: Trust)
    requires i <= |rs|
    ensures Collect(rs[..i], name, trust).Fail? ==> Collect(rs, name, trust) == Collect(rs[..i], name, trust)
    decreases |rs| - i
  {
    if i < |rs| {
      assert rs[..i + 1][..i] == rs[..i];
      CollectPrefix(rs, i + 1, name, trust);
    } else {
      assert rs[..i] == rs;
    }
  }
}
