/** The E record (type 266): an endpoint address with optional cluster sequence, agent address,
    load and publisher signature, announced by one flags byte. */
module Endpoint {
  import opened Bytes
  import opened Certificate
  import VarInt

  type Ipv4 = b: Bytes | |b| == 4 witness [0, 0, 0, 0]
  type Ipv6 = b: Bytes | |b| == 16 witness VarInt.Zeros(16)

  datatype SocketAddr =
    | V4(ip4: Ipv4, port: u16)
    | V6(ip6: Ipv6, port: u16, flowInfo: u32, scopeId: u32)

  /** The eight bits of the flags byte, most significant first. */
  datatype Flags = Flags(
    family: bool, main: bool, clustered: bool, behindNat: bool,
    load: bool, reserved1: bool, reserved2: bool, signed: bool)

  const NO_FLAGS := Flags(false, false, false, false, false, false, false, false)

  function Push(n: nat, bit: bool): nat {
    2 * n + if bit then 1 else 0
  }

  function FlagsByte(f: Flags): byte {
    var high := Push(Push(Push(Push(0, f.family), f.main), f.clustered), f.behindNat);
    Push(Push(Push(Push(high, f.load), f.reserved1), f.reserved2), f.signed)
  }

  predicate BitAt(n: nat, k: nat) {
    if k == 0 then n % 2 == 1 else BitAt(n / 2, k - 1)
  }

  function FlagsOf(b: byte): Flags {
    Flags(BitAt(b, 7), BitAt(b, 6), BitAt(b, 5), BitAt(b, 4), BitAt(b, 3), BitAt(b, 2), BitAt(b, 1), BitAt(b, 0))
  }

  datatype Signature = Signature(scheme: u16, bytes: Bytes)

  /** `load` is the bit pattern of a 32-bit float. */
  datatype Endpoint = Endpoint(
    flags: Flags,
    sequence: Option<Sequence>,
    load: Option<u32>,
    signature: Option<Signature>,
    primary: SocketAddr,
    agent: Option<SocketAddr>)
  {
    function NormalizedSequence(): Sequence {
      if sequence.Some? then sequence.value else 0
    }

    function CertificateChainKey(): ChainKey {
      ChainKey(NormalizedSequence(), flags.main)
    }
  }

  predicate AddressesAgree(e: Endpoint) {
    && e.flags.family == e.primary.V6?
    && e.flags.behindNat == e.agent.Some?
    && (e.agent.Some? ==> e.agent.value.V6? == e.primary.V6?)
  }

  predicate BaseAgrees(e: Endpoint) {
    && AddressesAgree(e)
    && e.flags.clustered == e.sequence.Some?
    && e.flags.load == e.load.Some?
  }

  /** Each flag that announces a field is set exactly when the field is there. */
  predicate FlagsAgree(e: Endpoint) {
    BaseAgrees(e) && e.flags.signed == e.signature.Some?
  }

  /** Flow information and scope of an IPv6 address are not written. */
  predicate Writable(a: SocketAddr) {
    a.V6? ==> a.flowInfo == 0 && a.scopeId == 0
  }

  /** Well-formed but for the signature. */
  predicate BaseWellFormed(e: Endpoint) {
    BaseAgrees(e) && Writable(e.primary) && (e.agent.Some? ==> Writable(e.agent.value))
  }

  /** What a reader can take apart again. */
  predicate Decodable(e: Endpoint) {
    && FlagsAgree(e)
    && (e.signature.Some? ==> |e.signature.value.bytes| <= VarInt.VARINT_MAX)
  }

  predicate WellFormed(e: Endpoint) {
    Decodable(e) && BaseWellFormed(e)
  }

  /** What is left of an address on the wire. */
  function Strip(a: SocketAddr): SocketAddr {
    match a
    case V4(_, _) => a
    case V6(ip, port, _, _) => V6(ip, port, 0, 0)
  }

  function Stripped(e: Endpoint): Endpoint {
    e.(primary := Strip(e.primary), agent := if e.agent.Some? then Some(Strip(e.agent.value)) else None)
  }

  // ------------------------------------------------------------------------------------------
  // Encoding

  function AddressBytes(a: SocketAddr): Bytes {
    BE(a.port, 2) + match a { case V4(ip, _) => ip case V6(ip, _, _, _) => ip }
  }

  function SequenceBytes(s: Option<Sequence>): Bytes {
    if s.Some? then VarInt.Encode(s.value) else []
  }

  function AgentBytes(a: Option<SocketAddr>): Bytes {
    if a.Some? then AddressBytes(a.value) else []
  }

  function LoadBytes(l: Option<u32>): Bytes {
    if l.Some? then BE(l.value, 4) else []
  }

  /** Everything but the signature. */
  function BaseBytes(e: Endpoint): Bytes {
    [FlagsByte(e.flags)] + (SequenceBytes(e.sequence) +
    (AddressBytes(e.primary) + AgentBytes(e.agent) + LoadBytes(e.load)))
  }

  /** A length that is no varint is written as zero. */
  function LengthVarInt(n: nat): VarInt.varint {
    if n <= VarInt.VARINT_MAX then n else 0
  }

  function SignatureBytes(s: Signature): Bytes {
    BE(s.scheme, 2) + (VarInt.Encode(LengthVarInt(|s.bytes|)) + s.bytes)
  }

  function EndpointBytes(e: Endpoint): Bytes {
    BaseBytes(e) + if e.flags.signed && e.signature.Some? then SignatureBytes(e.signature.value) else []
  }

  function EncodingSize(e: Endpoint): nat {
    var sequence := if e.sequence.Some? then VarInt.EncodingSize(e.sequence.value) else 0;
    var load := if e.load.Some? then 4 else 0;
    var signature :=
      if e.flags.signed && e.signature.Some? then
        var n := |e.signature.value.bytes|;
        2 + VarInt.EncodingSize(LengthVarInt(n)) + n
      else 0;
    1 + sequence + load + signature + AddressLength(e.flags)
  }

  function AddressLength(f: Flags): nat {
    (if f.family then 18 else 6) * (if f.behindNat then 2 else 1)
  }

  /** The bytes a publisher signs: the record as signed, without its signature. */
  function SignedData(e: Endpoint): Bytes {
    BaseBytes(e.(flags := e.flags.(signed := true), signature := None))
  }

  // ------------------------------------------------------------------------------------------
  // Parsing

  function BeSocketAddr(input: Bytes, v6: bool): (r: Parsed<SocketAddr>)
    ensures r.Ok? ==> Writable(r.value) && r.value.V6? == v6
  {
    var (remain, port) :- BeU16(input);
    if v6 then
      var (remain, ip) :- Take(remain, 16);
      Ok(remain, V6(ip, port, 0, 0))
    else
      var (remain, ip) :- Take(remain, 4);
      Ok(remain, V4(ip, port))
  }

  function BeSequence(input: Bytes, present: bool): (r: Parsed<Option<Sequence>>)
    ensures r.Ok? ==> r.value.Some? == present
  {
    if !present then Ok(input, None) else
    var (remain, n) :- VarInt.BeVarInt(input);
    if n > SEQUENCE_MAX then Failure(remain) else Ok(remain, Some(n))
  }

  function BeAgent(input: Bytes, present: bool, v6: bool): (r: Parsed<Option<SocketAddr>>)
    ensures r.Ok? ==> r.value.Some? == present
    ensures r.Ok? && present ==> Writable(r.value.value) && r.value.value.V6? == v6
  {
    if !present then Ok(input, None) else
    var (remain, a) :- BeSocketAddr(input, v6);
    Ok(remain, Some(a))
  }

  function BeAddresses(input: Bytes, behindNat: bool, v6: bool): (r: Parsed<(SocketAddr, Option<SocketAddr>)>)
    ensures r.Ok? ==> Writable(r.value.0) && r.value.0.V6? == v6 && r.value.1.Some? == behindNat
    ensures r.Ok? && behindNat ==> Writable(r.value.1.value) && r.value.1.value.V6? == v6
  {
    var (remain, primary) :- BeSocketAddr(input, v6);
    var (remain, agent) :- BeAgent(remain, behindNat, v6);
    Ok(remain, (primary, agent))
  }

  function BeLoad(input: Bytes, present: bool): (r: Parsed<Option<u32>>)
    ensures r.Ok? ==> r.value.Some? == present
  {
    if !present then Ok(input, None) else
    var (remain, bits) :- BeU32(input);
    Ok(remain, Some(bits))
  }

  function BeSignature(input: Bytes, signed: bool): (r: Parsed<Option<Signature>>)
    ensures r.Ok? ==> r.value.Some? == signed
    ensures r.Ok? && signed ==> |r.value.value.bytes| <= VarInt.VARINT_MAX
  {
    if !signed then
      if input != [] then Error(input) else Ok(input, None)
    else
      var (remain, scheme) :- BeU16(input);
      var (remain, n) :- VarInt.BeVarInt(remain);
      var (remain, bytes) :- Take(remain, n);
      Ok(remain, Some(Signature(scheme, bytes)))
  }

  /** Everything up to the signature. */
  function BeBase(input: Bytes): (r: Parsed<Endpoint>)
    ensures r.Ok? ==> BaseWellFormed(r.value) && r.value.signature.None?
    ensures r.Ok? ==> input != [] && r.value.flags == FlagsOf(input[0])
  {
    var (remain, first) :- BeU8(input);
    var flags := FlagsOf(first);
    var (remain, sequence) :- BeSequence(remain, flags.clustered);
    var (remain, addresses) :- BeAddresses(remain, flags.behindNat, flags.family);
    var (remain, load) :- BeLoad(remain, flags.load);
    Ok(remain, Endpoint(flags, sequence, load, None, addresses.0, addresses.1))
  }

  function BeEndpoint(input: Bytes): (r: Parsed<Endpoint>)
    ensures r.Ok? ==> WellFormed(r.value)
    ensures r.Ok? ==> input != [] && r.value.flags == FlagsOf(input[0])
  {
    var (remain, base) :- BeBase(input);
    var (remain, signature) :- BeSignature(remain, base.flags.signed);
    Ok(remain, base.(signature := signature))
  }

  const LEGACY_LENGTHS := {6, 12, 18, 36}

  function BeLegacyByLength(input: Bytes, rdlen: u16): Parsed<Endpoint> {
    if rdlen !in LEGACY_LENGTHS then Error(input) else
    var v6 := rdlen == 18 || rdlen == 36;
    var behindNat := rdlen == 12 || rdlen == 36;
    var (remain, (primary, agent)) :- BeAddresses(input, behindNat, v6);
    Ok(remain, Endpoint(NO_FLAGS.(family := v6, behindNat := behindNat), None, None, None, primary, agent))
  }

  /** Prefers a complete modern parse; falls back to the legacy layout of that length. */
  function BeCompat(input: Bytes, rdlen: u16): Parsed<Endpoint> {
    if rdlen in LEGACY_LENGTHS then
      var modern := BeEndpoint(input);
      if modern.Ok? && modern.rest == [] then modern else BeLegacyByLength(input, rdlen)
    else
      BeEndpoint(input)
  }

  // ------------------------------------------------------------------------------------------
  // Conversion from and to the addresses of the transport

  datatype Address = Direct(addr: SocketAddr) | Mediate(outer: SocketAddr, agentAddr: SocketAddr)

  function StripAddress(a: Address): Address {
    match a
    case Direct(addr) => Direct(Strip(addr))
    case Mediate(outer, agent) => Mediate(Strip(outer), Strip(agent))
  }

  predicate WritableAddress(a: Address) {
    match a
    case Direct(addr) => Writable(addr)
    case Mediate(outer, agent) => Writable(outer) && Writable(agent)
  }

  function DirectEndpoint(a: SocketAddr): Endpoint {
    Endpoint(NO_FLAGS.(family := a.V6?), None, None, None, a, None)
  }

  function NatEndpoint(outer: SocketAddr, agent: SocketAddr): Endpoint
    requires outer.V6? == agent.V6?
  {
    Endpoint(NO_FLAGS.(family := outer.V6?, behindNat := true), None, None, None, outer, Some(agent))
  }

  function FromAddress(a: Address): Option<Endpoint> {
    match a
    case Direct(addr) => Some(DirectEndpoint(addr))
    case Mediate(outer, agent) => if outer.V6? == agent.V6? then Some(NatEndpoint(outer, agent)) else None
  }

  function ToAddress(e: Endpoint): Option<Address> {
    if e.agent.None? then Some(Direct(e.primary))
    else if e.primary.V6? == e.agent.value.V6? then Some(Mediate(e.primary, e.agent.value))
    else None
  }

  // ------------------------------------------------------------------------------------------
  // Updates

  function WithMain(e: Endpoint, main: bool): Endpoint {
    e.(flags := e.flags.(main := main))
  }

  function WithLoad(e: Endpoint, load: Option<u32>): Endpoint {
    e.(load := load, flags := e.flags.(load := load.Some?))
  }

  function WithClustered(e: Endpoint, clustered: bool): Endpoint {
    e.(flags := e.flags.(clustered := clustered), sequence := if clustered then e.sequence else None)
  }

  function WithSequence(e: Endpoint, sequence: Sequence): Endpoint {
    if sequence > 0 then WithClustered(e.(sequence := Some(sequence)), true)
    else WithClustered(e.(sequence := None), false)
  }

  function WithSigned(e: Endpoint, signed: bool): Endpoint {
    e.(flags := e.flags.(signed := signed))
  }

  /** Signing sets the flag first; the signature follows only if the signer returns one. */
  function WithSignature(e: Endpoint, outcome: Option<Signature>): Endpoint {
    var flagged := WithSigned(e, true);
    if outcome.Some? then flagged.(signature := outcome) else flagged
  }

  /** The record as the program holds it, updated in place. */
  class EndpointAddr {
    var flags: Flags
    var sequence: Option<Sequence>
    var load: Option<u32>
    var signature: Option<Signature>
    var primary: SocketAddr
    var agent: Option<SocketAddr>

    function Value(): Endpoint
      reads this
    {
      Endpoint(flags, sequence, load, signature, primary, agent)
    }

    constructor Direct(addr: SocketAddr)
      ensures Value() == DirectEndpoint(addr)
    {
      flags, sequence, load, signature := NO_FLAGS.(family := addr.V6?), None, None, None;
      primary, agent := addr, None;
    }

    constructor Nat(outer: SocketAddr, agentAddr: SocketAddr)
      requires outer.V6? == agentAddr.V6?
      ensures Value() == NatEndpoint(outer, agentAddr)
    {
      flags, sequence := NO_FLAGS.(family := outer.V6?, behindNat := true), None;
      load, signature := None, None;
      primary, agent := outer, Some(agentAddr);
    }

    method SetMain(isMain: bool)
      modifies this
      ensures Value() == WithMain(old(Value()), isMain)
    {
      flags := flags.(main := isMain);
    }

    method SetClustered(clustered: bool)
      modifies this
      ensures Value() == WithClustered(old(Value()), clustered)
    {
      flags := flags.(clustered := clustered);
      if !clustered {
        sequence := None;
      }
    }

    method SetLoad(newLoad: Option<u32>)
      modifies this
      ensures Value() == WithLoad(old(Value()), newLoad)
    {
      load := newLoad;
      flags := flags.(load := load.Some?);
    }

    method SetSequence(s: Sequence)
      modifies this
      ensures Value() == WithSequence(old(Value()), s)
      ensures old(FlagsAgree(Value())) ==> FlagsAgree(Value())
      ensures Value().NormalizedSequence() == s
    {
      if s > 0 {
        sequence := Some(s);
        SetClustered(true);
      } else {
        sequence := None;
        SetClustered(false);
      }
    }

    method SetSigned(signed: bool)
      modifies this
      ensures Value() == WithSigned(old(Value()), signed)
    {
      flags := flags.(signed := signed);
    }

    /** `signed` is what the authority returns for the signed data, if anything. */
    method SignWithAuthority(signed: Option<Signature>)
      modifies this
      ensures Value() == WithSignature(old(Value()), signed)
      ensures SignedData(Value()) == SignedData(old(Value()))
    {
      SetSigned(true);
      if signed.Some? {
        signature := signed;
      }
    }
  }
}
