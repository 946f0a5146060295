/** Properties of the E record codec. */
module EndpointProofs {
  import opened Bytes
  import opened Certificate
  import opened Endpoint
  import VarInt

  lemma PushedBits(n: nat, bit: bool)
    ensures BitAt(Push(n, bit), 0) == bit
    ensures forall k: nat :: BitAt(Push(n, bit), k + 1) == BitAt(n, k)
  {
    assert Push(n, bit) / 2 == n;
  }

  lemma FlagsByteRoundTrip(f: Flags)
    ensures FlagsOf(FlagsByte(f)) == f
  {
    hide Push, BitAt;
    var n1 := Push(0, f.family);
    var n2 := Push(n1, f.main);
    var n3 := Push(n2, f.clustered);
    var n4 := Push(n3, f.behindNat);
    var n5 := Push(n4, f.load);
    var n6 := Push(n5, f.reserved1);
    var n7 := Push(n6, f.reserved2);
    PushedBits(0, f.family);
    PushedBits(n1, f.main);
    PushedBits(n2, f.clustered);
    PushedBits(n3, f.behindNat);
    PushedBits(n4, f.load);
    PushedBits(n5, f.reserved1);
    PushedBits(n6, f.reserved2);
    PushedBits(n7, f.signed);
  }

  function Bit(b: bool): nat {
    if b then 1 else 0
  }

  function Nibble(a: bool, b: bool, c: bool, d: bool): (n: nat)
    ensures n < 16
  {
    8 * Bit(a) + 4 * Bit(b) + 2 * Bit(c) + Bit(d)
  }

  lemma Nibbles(n: nat, high: nat, low: nat)
    requires n == 16 * high + low && low < 16
    ensures n / 16 == high && n % 16 == low
  {
  }

  lemma PushFour(n: nat, a: bool, b: bool, c: bool, d: bool)
    ensures Push(Push(Push(Push(n, a), b), c), d) == 16 * n + Nibble(a, b, c, d)
  {
    assert Push(n, a) == 2 * n + Bit(a);
    assert Push(Push(n, a), b) == 4 * n + 2 * Bit(a) + Bit(b);
  }

  /** The weights of the flags: family is the top bit of the high nibble, signed the last of
      the low one. */
  lemma FlagWeights(f: Flags)
    ensures FlagsByte(f) / 16 == Nibble(f.family, f.main, f.clustered, f.behindNat)
    ensures FlagsByte(f) % 16 == Nibble(f.load, f.reserved1, f.reserved2, f.signed)
  {
    hide Push, Nibble;
    var high := Push(Push(Push(Push(0, f.family), f.main), f.clustered), f.behindNat);
    PushFour(0, f.family, f.main, f.clustered, f.behindNat);
    PushFour(high, f.load, f.reserved1, f.reserved2, f.signed);
    Nibbles(FlagsByte(f), high, Nibble(f.load, f.reserved1, f.reserved2, f.signed));
  }

  lemma ReadAddress(a: SocketAddr, rest: Bytes)
    requires Writable(a)
    ensures BeSocketAddr(AddressBytes(a) + rest, a.V6?) == Ok(rest, a)
    ensures |AddressBytes(a)| == if a.V6? then 18 else 6
  {
    var ip: Bytes := match a { case V4(ip, _) => ip case V6(ip, _, _, _) => ip };
    assert AddressBytes(a) + rest == BE(a.port, 2) + (ip + rest);
    ReadU16(a.port, ip + rest);
    TakePrefix(ip, rest);
  }

  lemma ReadSequence(s: Option<Sequence>, rest: Bytes)
    ensures BeSequence(SequenceBytes(s) + rest, s.Some?) == Ok(rest, s)
  {
    if s.Some? {
      VarInt.RoundTrip(s.value, rest);
    } else {
      assert [] + rest == rest;
    }
  }

  lemma ReadAgent(a: Option<SocketAddr>, v6: bool, rest: Bytes)
    requires a.Some? ==> Writable(a.value) && a.value.V6? == v6
    ensures BeAgent(AgentBytes(a) + rest, a.Some?, v6) == Ok(rest, a)
  {
    if a.Some? {
      ReadAddress(a.value, rest);
    } else {
      assert [] + rest == rest;
    }
  }

  lemma ReadLoad(l: Option<u32>, rest: Bytes)
    ensures BeLoad(LoadBytes(l) + rest, l.Some?) == Ok(rest, l)
  {
    if l.Some? {
      ReadU32(l.value, rest);
    } else {
      assert [] + rest == rest;
    }
  }

  lemma ReadSignature(s: Signature, rest: Bytes)
    requires |s.bytes| <= VarInt.VARINT_MAX
    ensures BeSignature(SignatureBytes(s) + rest, true) == Ok(rest, Some(s))
  {
    var n := VarInt.Encode(|s.bytes|);
    assert SignatureBytes(s) + rest == BE(s.scheme, 2) + (n + (s.bytes + rest));
    ReadU16(s.scheme, n + (s.bytes + rest));
    VarInt.RoundTrip(|s.bytes|, s.bytes + rest);
    TakePrefix(s.bytes, rest);
  }

  lemma ReadAddresses(p: SocketAddr, a: Option<SocketAddr>, rest: Bytes)
    requires Writable(p) && (a.Some? ==> Writable(a.value) && a.value.V6? == p.V6?)
    ensures BeAddresses(AddressBytes(p) + AgentBytes(a) + rest, a.Some?, p.V6?) == Ok(rest, (p, a))
  {
    hide AddressBytes, AgentBytes, BeSocketAddr, BeAgent;
    assert AddressBytes(p) + AgentBytes(a) + rest == AddressBytes(p) + (AgentBytes(a) + rest);
    ReadAddress(p, AgentBytes(a) + rest);
    ReadAgent(a, p.V6?, rest);
  }

  /** The base parser, from what its parts return. */
  lemma BaseFromParts(
    input: Bytes, f: Flags, s: Parsed<Option<Sequence>>, a: Parsed<(SocketAddr, Option<SocketAddr>)>,
    l: Parsed<Option<u32>>)
    requires input != [] && f == FlagsOf(input[0])
    requires s == BeSequence(input[1..], f.clustered)
    requires s.Ok? ==> a == BeAddresses(s.rest, f.behindNat, f.family)
    requires s.Ok? && a.Ok? ==> l == BeLoad(a.rest, f.load)
    ensures BeBase(input).Ok? <==> s.Ok? && a.Ok? && l.Ok?
    ensures BeBase(input).Ok? ==>
              BeBase(input) == Ok(l.rest, Endpoint(f, s.value, l.value, None, a.value.0, a.value.1))
  {
    hide FlagsOf, BeSequence, BeAddresses, BeLoad, BaseWellFormed;
  }

  lemma ReadBase(e: Endpoint, rest: Bytes)
    requires BaseWellFormed(e)
    ensures BeBase(BaseBytes(e) + rest) == Ok(rest, e.(signature := None))
  {
    FlagsByteRoundTrip(e.flags);
    var r3 := LoadBytes(e.load) + rest;
    var r2 := AddressBytes(e.primary) + AgentBytes(e.agent) + r3;
    var r1 := SequenceBytes(e.sequence) + r2;
    var input := BaseBytes(e) + rest;
    assert input == [FlagsByte(e.flags)] + r1;
    assert input[1..] == r1;
    ReadSequence(e.sequence, r2);
    ReadAddresses(e.primary, e.agent, r3);
    ReadLoad(e.load, rest);
    BaseFromParts(input, e.flags, Ok(r2, e.sequence), Ok(r3, (e.primary, e.agent)), Ok(rest, e.load));
  }

  /** Decoding inverts encoding on well-formed endpoints; a signed one may be followed by
      more bytes. */
  lemma ReadEndpoint(e: Endpoint, rest: Bytes)
    requires WellFormed(e) && (rest == [] || e.flags.signed)
    ensures BeEndpoint(EndpointBytes(e) + rest) == Ok(rest, e)
  {
    if e.flags.signed {
      var s := SignatureBytes(e.signature.value);
      assert EndpointBytes(e) + rest == BaseBytes(e) + (s + rest);
      ReadBase(e, s + rest);
      ReadSignature(e.signature.value, rest);
    } else {
      ReadBase(e, []);
      assert EndpointBytes(e) + rest == BaseBytes(e) + [];
    }
  }

  /** Well-formedness is exactly what a round trip needs. */
  lemma RoundTripIffWellFormed(e: Endpoint)
    ensures BeEndpoint(EndpointBytes(e)) == Ok([], e) <==> WellFormed(e)
  {
    if WellFormed(e) {
      ReadEndpoint(e, []);
      assert EndpointBytes(e) + [] == EndpointBytes(e);
    }
  }

  /** Flow information and scope are all that can get lost, and the writer does not see them. */
  lemma StrippedSame(e: Endpoint)
    ensures EndpointBytes(Stripped(e)) == EndpointBytes(e) && SignedData(Stripped(e)) == SignedData(e)
    ensures FlagsAgree(Stripped(e)) <==> FlagsAgree(e)
    ensures Decodable(e) ==> WellFormed(Stripped(e))
    ensures Stripped(e) == e <==> Writable(e.primary) && (e.agent.Some? ==> Writable(e.agent.value))
    ensures ToAddress(Stripped(e)).Some? <==> ToAddress(e).Some?
    ensures ToAddress(e).Some? ==> ToAddress(Stripped(e)).value == StripAddress(ToAddress(e).value)
  {
    hide BE, FlagsByte, VarInt.Encode, SignatureBytes;
    assert AddressBytes(Strip(e.primary)) == AddressBytes(e.primary);
    assert AgentBytes(Stripped(e).agent) == AgentBytes(e.agent);
  }

  lemma StrippedIffWritable(a: Address)
    ensures StripAddress(a) == a <==> WritableAddress(a)
  {
  }

  /** Whatever its addresses, a readable endpoint comes back with both cleared. */
  lemma ReadStripped(e: Endpoint)
    requires Decodable(e)
    ensures BeEndpoint(EndpointBytes(e)) == Ok([], Stripped(e))
  {
    hide EndpointBytes, BeEndpoint, Stripped, WellFormed;
    StrippedSame(e);
    RoundTripIffWellFormed(Stripped(e));
  }

  /** A flag without its signature: the record ends where the signature should begin. */
  lemma MissingSignatureIncomplete(e: Endpoint)
    requires BaseAgrees(e) && e.flags.signed && e.signature.None?
    ensures BeEndpoint(EndpointBytes(e)) == Incomplete
  {
    hide BaseBytes, BeBase;
    StrippedSame(e);
    ReadBase(Stripped(e), []);
    assert BaseBytes(Stripped(e)) + [] == EndpointBytes(Stripped(e));
  }

  /** So it is not read at all, or, at the length of a legacy record, read as one. */
  lemma MissingSignatureCompat(e: Endpoint)
    requires BaseAgrees(e) && e.flags.signed && e.signature.None? && |EndpointBytes(e)| < 0x1_0000
    ensures var b := EndpointBytes(e);
            BeCompat(b, |b|) == if |b| in LEGACY_LENGTHS then Ok([], LegacyEndpoint(b)) else Incomplete
  {
    hide EndpointBytes, BeEndpoint, BeLegacyByLength, LegacyEndpoint;
    MissingSignatureIncomplete(e);
    if |EndpointBytes(e)| in LEGACY_LENGTHS {
      LegacyParse(EndpointBytes(e));
    }
  }

  /** A value read from non-minimal varints re-encodes to bytes that read back to it. */
  lemma ReencodeParsed(input: Bytes)
    requires BeEndpoint(input).Ok?
    ensures BeEndpoint(EndpointBytes(BeEndpoint(input).value)) == Ok([], BeEndpoint(input).value)
  {
    RoundTripIffWellFormed(BeEndpoint(input).value);
  }

  lemma BaseSize(e: Endpoint)
    requires AddressesAgree(e)
    ensures |BaseBytes(e)| ==
            1 + (if e.sequence.Some? then VarInt.EncodingSize(e.sequence.value) else 0) +
            AddressLength(e.flags) + if e.load.Some? then 4 else 0
  {
    hide VarInt.Encode, VarInt.EncodingSize, BE, FlagsByte;
    if e.sequence.Some? {
      VarInt.RoundTrip(e.sequence.value, []);
    }
  }

  lemma SizeIsLength(e: Endpoint)
    requires AddressesAgree(e)
    ensures EncodingSize(e) == |EndpointBytes(e)|
  {
    hide VarInt.Encode, VarInt.EncodingSize, BE, BaseBytes, AddressesAgree, AddressLength;
    BaseSize(e);
    if e.signature.Some? {
      VarInt.RoundTrip(LengthVarInt(|e.signature.value.bytes|), []);
    }
  }

  lemma BaseIgnoresSignature(e: Endpoint, signature: Option<Signature>)
    ensures BaseBytes(e.(signature := signature)) == BaseBytes(e)
  {
    hide FlagsByte, SequenceBytes, AddressBytes, AgentBytes, LoadBytes;
  }

  /** The signed bytes say themselves that they are signed. */
  lemma SignedFirstByte(e: Endpoint)
    ensures SignedData(e)[0] % 2 == 1
  {
    hide SequenceBytes, AddressBytes, AgentBytes, LoadBytes, FlagsByte;
    var f := e.flags.(signed := true);
    FlagWeights(f);
    LowBit(FlagsByte(f), Nibble(f.load, f.reserved1, f.reserved2, true));
  }

  lemma LowBit(n: nat, low: nat)
    requires n % 16 == low && low % 2 == 1
    ensures n % 2 == 1
  {
    assert n == 16 * (n / 16) + low;
  }

  /** What is signed is what a signed record puts before its signature, and does not depend on
      whether it was signed before; an unsigned record puts no signature. */
  lemma SignedPrefix(e: Endpoint)
    ensures e.flags.signed && e.signature.Some? ==>
              EndpointBytes(e) == SignedData(e) + SignatureBytes(e.signature.value)
    ensures !e.flags.signed ==> EndpointBytes(e) == EndpointBytes(e.(signature := None))
    ensures SignedData(WithSigned(e, false)) == SignedData(e)
  {
    hide BaseBytes, SignatureBytes;
    BaseIgnoresSignature(e, None);
    BaseIgnoresSignature(e.(flags := e.flags.(signed := true)), None);
    assert e.flags.signed ==> e.(flags := e.flags.(signed := true)) == e;
    assert e.flags.(signed := false).(signed := true) == e.flags.(signed := true);
  }

  /** The signed bytes determine every field but the signature and the SIGNED bit. */
  lemma SignedDataDetermines(e1: Endpoint, e2: Endpoint)
    requires WellFormed(e1) && WellFormed(e2)
    requires SignedData(e1) == SignedData(e2)
    ensures e1.(flags := e1.flags.(signed := true), signature := None) ==
            e2.(flags := e2.flags.(signed := true), signature := None)
  {
    var s1 := e1.(flags := e1.flags.(signed := true), signature := None);
    var s2 := e2.(flags := e2.flags.(signed := true), signature := None);
    ReadBase(s1, []);
    ReadBase(s2, []);
    assert BaseBytes(s1) + [] == BaseBytes(s2) + [];
  }

  // ------------------------------------------------------------------------------------------
  // Updates

  datatype Update =
    | SetMain(main: bool)
    | SetLoad(load: Option<u32>)
    | SetSequence(sequence: Sequence)
    | SetClustered(clustered: bool)
    | SetSigned(signed: bool)
    | Sign(outcome: Option<Signature>)

  function Apply(e: Endpoint, u: Update): Endpoint {
    match u
    case SetMain(main) => WithMain(e, main)
    case SetLoad(load) => WithLoad(e, load)
    case SetSequence(sequence) => WithSequence(e, sequence)
    case SetClustered(clustered) => WithClustered(e, clustered)
    case SetSigned(signed) => WithSigned(e, signed)
    case Sign(outcome) => WithSignature(e, outcome)
  }

  /** The updates that leave flags and fields in agreement: not a bare CLUSTERED flag, not a
      SIGNED flag that differs from the presence of a signature, not a failed signing of an
      unsigned record. */
  predicate Safe(e: Endpoint, u: Update) {
    match u
    case SetClustered(clustered) => clustered ==> e.sequence.Some?
    case SetSigned(signed) => signed == e.signature.Some?
    case Sign(outcome) => outcome.Some? || e.signature.Some?
    case _ => true
  }

  lemma UpdateKeepsAgreementIffSafe(e: Endpoint, u: Update)
    requires FlagsAgree(e)
    ensures FlagsAgree(Apply(e, u)) <==> Safe(e, u)
  {
    match u
    case SetMain(_) =>
    case SetLoad(_) =>
    case SetSequence(_) =>
    case SetClustered(_) =>
    case SetSigned(_) =>
    case Sign(_) =>
  }

  /** Each update makes its field what was asked for. */
  lemma UpdateSets(e: Endpoint, u: Update)
    ensures var e' := Apply(e, u);
            match u
            case SetMain(main) => e'.flags.main == main
            case SetLoad(load) => e'.load == load && e'.flags.load == load.Some?
            case SetSequence(n) => e'.NormalizedSequence() == n && e'.flags.clustered == (n > 0)
            case SetClustered(clustered) => e'.flags.clustered == clustered && (!clustered ==> e'.sequence.None?)
            case SetSigned(signed) => e'.flags.signed == signed
            case Sign(outcome) => e'.flags.signed && (outcome.Some? ==> e'.signature == outcome)
  {
  }

  predicate SameKind(u: Update, v: Update) {
    match u
    case SetMain(_) => v.SetMain?
    case SetLoad(_) => v.SetLoad?
    case SetSequence(_) => v.SetSequence?
    case SetClustered(_) => false
    case SetSigned(_) => v.SetSigned?
    case Sign(_) => v.Sign? && v.outcome.Some?
  }

  /** Of two updates of one kind, the last decides ... */
  lemma UpdateOverwrites(e: Endpoint, u: Update, v: Update)
    requires SameKind(u, v)
    ensures Apply(Apply(e, u), v) == Apply(e, v)
  {
    hide WithMain, WithLoad, WithSequence, WithSigned, WithSignature;
    match u
    case SetMain(x) => MainOverwritten(e, x, v.main);
    case SetLoad(x) => LoadOverwritten(e, x, v.load);
    case SetSequence(x) => SequenceOverwritten(e, x, v.sequence);
    case SetSigned(x) => SignedOverwritten(e, x, v.signed);
    case Sign(x) => SignatureOverwritten(e, x, v.outcome);
  }

  lemma MainOverwritten(e: Endpoint, x: bool, y: bool)
    ensures WithMain(WithMain(e, x), y) == WithMain(e, y)
  {
  }

  lemma LoadOverwritten(e: Endpoint, x: Option<u32>, y: Option<u32>)
    ensures WithLoad(WithLoad(e, x), y) == WithLoad(e, y)
  {
  }

  lemma SequenceOverwritten(e: Endpoint, x: Sequence, y: Sequence)
    ensures WithSequence(WithSequence(e, x), y) == WithSequence(e, y)
  {
  }

  lemma SignedOverwritten(e: Endpoint, x: bool, y: bool)
    ensures WithSigned(WithSigned(e, x), y) == WithSigned(e, y)
  {
  }

  lemma SignatureOverwritten(e: Endpoint, x: Option<Signature>, y: Option<Signature>)
    requires y.Some?
    ensures WithSignature(WithSignature(e, x), y) == WithSignature(e, y)
  {
  }

  /** ... and setting what is there already changes nothing, so that each update touches nothing
      but its own field. */
  lemma UpdateIdle(e: Endpoint, u: Update)
    requires FlagsAgree(e) && e.sequence != Some(0)
    requires u == SetMain(e.flags.main) || u == SetLoad(e.load) || u == SetSequence(e.NormalizedSequence()) ||
             u == SetClustered(e.flags.clustered) || u == SetSigned(e.flags.signed) ||
             (u == Sign(e.signature) && e.signature.Some?)
    ensures Apply(e, u) == e
  {
  }

  /** Which addresses become records, which records become addresses, and the first byte of a
      record as it is built. */
  lemma Conversions(a: Address, e: Endpoint)
    ensures FromAddress(a).Some? <==> a.Direct? || a.outer.V6? == a.agentAddr.V6?
    ensures ToAddress(e).None? <==> e.agent.Some? && e.agent.value.V6? != e.primary.V6?
    ensures FromAddress(a).Some? ==>
              var f := FromAddress(a).value;
              && ToAddress(f) == Some(a) && f.sequence.None? && f.load.None? && f.signature.None?
              && FlagsByte(f.flags) ==
                 (if a.Direct? then (if a.addr.V6? then 128 else 0) else (if a.outer.V6? then 144 else 16))
  {
    if FromAddress(a).Some? {
      FlagWeights(FromAddress(a).value.flags);
    }
  }

  function ApplyAll(e: Endpoint, us: seq<Update>): Endpoint {
    if us == [] then e else Apply(ApplyAll(e, us[..|us| - 1]), us[|us| - 1])
  }

  predicate AllSafe(e: Endpoint, us: seq<Update>) {
    us == [] || (AllSafe(e, us[..|us| - 1]) && Safe(ApplyAll(e, us[..|us| - 1]), us[|us| - 1]))
  }

  predicate ShortSignatures(us: seq<Update>) {
    forall u :: u in us && u.Sign? && u.outcome.Some? ==> |u.outcome.value.bytes| <= VarInt.VARINT_MAX
  }

  /** The bare flags, and a failed signing, leave announcements of absent fields. */
  lemma UnsafeExamples(a: SocketAddr)
    ensures var e := DirectEndpoint(a);
            && FlagsAgree(e)
            && !FlagsAgree(Apply(e, SetClustered(true)))
            && !FlagsAgree(Apply(e, SetSigned(true)))
            && !FlagsAgree(Apply(e, Sign(None)))
  {
    var e := DirectEndpoint(a);
    UpdateKeepsAgreementIffSafe(e, SetClustered(true));
    UpdateKeepsAgreementIffSafe(e, SetSigned(true));
    UpdateKeepsAgreementIffSafe(e, Sign(None));
  }

  lemma UpdateStaysWellFormed(e: Endpoint, u: Update)
    requires Decodable(e) && Safe(e, u) && ShortSignatures([u])
    ensures Decodable(Apply(e, u)) && (WellFormed(e) ==> WellFormed(Apply(e, u)))
  {
    UpdateKeepsAgreementIffSafe(e, u);
    assert u in [u];
    match u
    case SetMain(_) =>
    case SetLoad(_) =>
    case SetSequence(_) =>
    case SetClustered(_) =>
    case SetSigned(_) =>
    case Sign(_) =>
  }

  lemma {:induction false} UpdatesStayWellFormed(e: Endpoint, us: seq<Update>)
    requires Decodable(e) && AllSafe(e, us) && ShortSignatures(us)
    ensures Decodable(ApplyAll(e, us)) && (WellFormed(e) ==> WellFormed(ApplyAll(e, us)))
  {
    if us != [] {
      UpdatesStayWellFormed(e, us[..|us| - 1]);
      UpdateStaysWellFormed(ApplyAll(e, us[..|us| - 1]), us[|us| - 1]);
    }
  }

  /** Every endpoint built from an address by safe updates encodes in `EncodingSize` bytes, reads
      back with nothing but flow information and scope cleared, and signs the same bytes after the
      round trip; it is unchanged exactly if the address had neither. */
  lemma BuiltEndpointsRoundTrip(a: Address, us: seq<Update>)
    requires FromAddress(a).Some?
    requires AllSafe(FromAddress(a).value, us) && ShortSignatures(us)
    ensures var e := ApplyAll(FromAddress(a).value, us);
            && FlagsAgree(e)
            && BeEndpoint(EndpointBytes(e)) == Ok([], Stripped(e))
            && (Stripped(e) == e <==> WritableAddress(a))
            && EncodingSize(e) == |EndpointBytes(e)|
            && SignedData(BeEndpoint(EndpointBytes(e)).value) == SignedData(e)
            && ToAddress(e) == Some(a)
  {
    hide EndpointBytes, BeEndpoint, SignedData, EncodingSize, ApplyAll, AllSafe;
    UpdatesStayWellFormed(FromAddress(a).value, us);
    var e := ApplyAll(FromAddress(a).value, us);
    ReadStripped(e);
    StrippedSame(e);
    SizeIsLength(e);
    UpdatesKeepAddress(FromAddress(a).value, us);
  }

  lemma {:induction false} UpdatesKeepAddress(e: Endpoint, us: seq<Update>)
    ensures ToAddress(ApplyAll(e, us)) == ToAddress(e)
  {
    if us != [] {
      UpdatesKeepAddress(e, us[..|us| - 1]);
    }
  }

  // ------------------------------------------------------------------------------------------
  // Modern and legacy records

  /** A modern record of any length survives the compatibility parser. */
  lemma CompatReadsModern(e: Endpoint)
    requires Decodable(e) && |EndpointBytes(e)| < 0x1_0000
    ensures BeCompat(EndpointBytes(e), |EndpointBytes(e)|) == Ok([], Stripped(e))
    ensures WellFormed(e) ==> Stripped(e) == e
  {
    hide BeEndpoint, EndpointBytes;
    ReadStripped(e);
    StrippedSame(e);
  }

  /** The bytes the sequence takes: none, or what its first byte announces. */
  function SequenceLength(b: Bytes): Option<nat>
    requires b != []
  {
    if !FlagsOf(b[0]).clustered then Some(0)
    else if |b| < 2 || 1 + VarInt.AnnouncedLength(b[1]) > |b| then None
    else if FromBE([b[1] % 64] + b[2..1 + VarInt.AnnouncedLength(b[1])]) > SEQUENCE_MAX then None
    else Some(VarInt.AnnouncedLength(b[1]))
  }

  /** The length at which the bytes from `b` on would be one modern record, by its flags, its
      sequence prefix and its signature length. */
  function ModernLength(b: Bytes): Option<nat>
    requires b != []
  {
    var flags := FlagsOf(b[0]);
    var sequence := SequenceLength(b);
    if sequence.None? then None else
    var base := BaseLength(flags, sequence.value);
    if !flags.signed then Some(base)
    else if base + 3 > |b| || base + 2 + VarInt.AnnouncedLength(b[base + 2]) > |b| then None
    else
      var n := VarInt.AnnouncedLength(b[base + 2]);
      Some(base + 2 + n + FromBE([b[base + 2] % 64] + b[base + 3..base + 2 + n]))
  }

  lemma SliceSlice(b: Bytes, i: nat, j: nat)
    requires i + j <= |b|
    ensures b[i..][j..] == b[i + j..]
  {
  }

  lemma AddressTaken(b: Bytes, v6: bool)
    ensures BeSocketAddr(b, v6).Ok? <==> |b| >= if v6 then 18 else 6
    ensures BeSocketAddr(b, v6).Ok? ==> BeSocketAddr(b, v6).rest == b[if v6 then 18 else 6..]
  {
    if |b| >= 2 {
      var n := if v6 then 16 else 4;
      if |b| >= 2 + n {
        SliceSlice(b, 2, n);
      }
    }
  }

  lemma SequenceTaken(b: Bytes)
    requires b != []
    ensures BeSequence(b[1..], FlagsOf(b[0]).clustered).Ok? <==> SequenceLength(b).Some?
    ensures SequenceLength(b).Some? ==>
              && 1 + SequenceLength(b).value <= |b|
              && BeSequence(b[1..], FlagsOf(b[0]).clustered).rest == b[1 + SequenceLength(b).value..]
  {
    if FlagsOf(b[0]).clustered {
      VarInt.BeVarIntValue(b[1..]);
      if |b| >= 2 {
        var n := VarInt.AnnouncedLength(b[1]);
        if 1 + n <= |b| {
          assert b[1..][1..n] == b[2..1 + n];
          SliceSlice(b, 1, n);
        }
      }
    }
  }

  lemma AddressesTaken(b: Bytes, f: Flags)
    ensures BeAddresses(b, f.behindNat, f.family).Ok? <==> |b| >= AddressLength(f)
    ensures |b| >= AddressLength(f) ==>
              BeAddresses(b, f.behindNat, f.family).rest == b[AddressLength(f)..]
  {
    var n := if f.family then 18 else 6;
    AddressTaken(b, f.family);
    if |b| >= n {
      AddressTaken(b[n..], f.family);
      if f.behindNat && |b| >= 2 * n {
        SliceSlice(b, n, n);
      }
    }
  }

  /** The length of a base with these flags and a sequence of `n` bytes. */
  function BaseLength(f: Flags, n: nat): nat {
    1 + n + AddressLength(f) + if f.load then 4 else 0
  }

  /** The base of a modern record is readable exactly when it fits. */
  lemma BaseTaken(b: Bytes, f: Flags, s: Option<nat>)
    requires b != [] && f == FlagsOf(b[0]) && s == SequenceLength(b)
    ensures BeBase(b).Ok? <==> s.Some? && BaseLength(f, s.value) <= |b|
    ensures BeBase(b).Ok? ==> BeBase(b).rest == b[BaseLength(f, s.value)..]
  {
    hide BeBase, BeAddresses, BeSequence, SequenceLength, FlagsOf;
    SequenceTaken(b);
    var rs := BeSequence(b[1..], f.clustered);
    if s.None? {
      BaseFromParts(b, f, rs, Incomplete, Incomplete);
    } else {
      var ra := BeAddresses(rs.rest, f.behindNat, f.family);
      AddressesTaken(rs.rest, f);
      var rl := if ra.Ok? then BeLoad(ra.rest, f.load) else Incomplete;
      BaseFromParts(b, f, rs, ra, rl);
      if ra.Ok? {
        SliceSlice(b, 1 + s.value, AddressLength(f));
        if rl.Ok? && f.load {
          SliceSlice(b, 1 + s.value + AddressLength(f), 4);
        }
      }
    }
  }

  lemma SignatureTaken(b: Bytes, base: nat)
    requires base <= |b|
    ensures var r := BeSignature(b[base..], true);
            r.Ok? && r.rest == [] <==>
            && base + 3 <= |b|
            && var n := VarInt.AnnouncedLength(b[base + 2]);
            && base + 2 + n <= |b|
            && base + 2 + n + FromBE([b[base + 2] % 64] + b[base + 3..base + 2 + n]) == |b|
  {
    if base + 2 <= |b| {
      SliceSlice(b, base, 2);
      var tail := b[base + 2..];
      VarInt.BeVarIntValue(tail);
      if tail != [] {
        var n := VarInt.AnnouncedLength(tail[0]);
        if n <= |tail| {
          assert tail[1..n] == b[base + 3..base + 2 + n];
          SliceSlice(b, base + 2, n);
        }
      }
    }
  }

  lemma EndpointFromParts(b: Bytes)
    ensures BeEndpoint(b).Ok? && BeEndpoint(b).rest == [] <==>
            && BeBase(b).Ok?
            && var r := BeSignature(BeBase(b).rest, BeBase(b).value.flags.signed);
            && r.Ok? && r.rest == []
  {
    hide BeBase, BeSignature;
  }

  lemma UnsignedTaken(rest: Bytes)
    ensures var r := BeSignature(rest, false);
            r.Ok? && r.rest == [] <==> rest == []
  {
  }

  /** A complete modern parse succeeds exactly when the announced length is the length. */
  lemma ModernIffLength(b: Bytes)
    requires b != []
    ensures BeEndpoint(b).Ok? && BeEndpoint(b).rest == [] <==> ModernLength(b) == Some(|b|)
  {
    hide BeBase, BeSignature, BeEndpoint, SequenceLength, FlagsOf, FromBE, BaseLength;
    var f, s := FlagsOf(b[0]), SequenceLength(b);
    BaseTaken(b, f, s);
    EndpointFromParts(b);
    if BeBase(b).Ok? {
      UnsignedTaken(BeBase(b).rest);
      SignatureTaken(b, BaseLength(f, s.value));
    }
  }

  /** Data of no legacy length is read as modern or not at all. */
  lemma OtherLengthsModern(b: Bytes)
    requires |b| < 0x1_0000 && |b| !in {6, 12, 18, 36}
    ensures BeCompat(b, |b|) == BeEndpoint(b)
  {
    hide BeEndpoint, BeLegacyByLength;
  }

  /** Addresses, loads and signatures only ever ask for more input. */
  lemma AddressAsks(b: Bytes, behindNat: bool, v6: bool)
    ensures BeAddresses(b, behindNat, v6).Ok? || BeAddresses(b, behindNat, v6) == Incomplete
  {
    hide FromBE;
  }

  lemma LoadAsks(b: Bytes, present: bool)
    ensures BeLoad(b, present).Ok? || BeLoad(b, present) == Incomplete
  {
    hide FromBE;
  }

  lemma VarIntAsks(b: Bytes)
    ensures VarInt.BeVarInt(b).Ok? || VarInt.BeVarInt(b) == Incomplete
  {
  }

  lemma SignatureAsks(b: Bytes)
    ensures BeSignature(b, true).Ok? || BeSignature(b, true) == Incomplete
  {
    hide FromBE, VarInt.BeVarInt;
    if |b| >= 2 {
      VarIntAsks(b[2..]);
    }
  }

  lemma SequenceAsks(b: Bytes, present: bool)
    ensures var r, n := BeSequence(b, present), VarInt.BeVarInt(b);
            && (r.Failure? <==> present && n.Ok? && n.value > SEQUENCE_MAX)
            && !r.Error?
  {
    hide VarInt.BeVarInt;
    VarIntAsks(b);
  }

  lemma BaseOutcomes(b: Bytes)
    ensures BeBase(b).Failure? <==> b != [] && BeSequence(b[1..], FlagsOf(b[0]).clustered).Failure?
    ensures !BeBase(b).Error?
  {
    hide FlagsOf, BeSequence, BeAddresses, BeLoad;
    if b != [] {
      var f := FlagsOf(b[0]);
      var s := BeSequence(b[1..], f.clustered);
      SequenceAsks(b[1..], f.clustered);
      if s.Ok? {
        var a := BeAddresses(s.rest, f.behindNat, f.family);
        AddressAsks(s.rest, f.behindNat, f.family);
        if a.Ok? {
          LoadAsks(a.rest, f.load);
        }
      }
    }
  }

  /** Why a modern record does not parse: a sequence out of range is fatal, bytes behind an
      unsigned record are an error that points at them, and everything else asks for more. */
  lemma EndpointOutcomes(b: Bytes)
    ensures BeEndpoint(b).Failure? <==>
            && b != [] && FlagsOf(b[0]).clustered
            && var n := VarInt.BeVarInt(b[1..]);
            && n.Ok? && n.value > SEQUENCE_MAX
    ensures BeEndpoint(b).Error? <==> BeBase(b).Ok? && !FlagsOf(b[0]).signed && BeBase(b).rest != []
    ensures BeEndpoint(b).Error? ==> BeEndpoint(b).at == BeBase(b).rest
  {
    hide FlagsOf, VarInt.BeVarInt, BeBase, BeSequence;
    BaseOutcomes(b);
    if b != [] {
      SequenceAsks(b[1..], FlagsOf(b[0]).clustered);
    }
    if BeBase(b).Ok? {
      SignatureAsks(BeBase(b).rest);
    }
  }

  /** A legacy record is an address, or two, and nothing else. */
  function LegacyEndpoint(b: Bytes): (e: Endpoint)
    requires |b| in LEGACY_LENGTHS
    ensures e.sequence.None? && e.load.None? && e.signature.None? && FlagsAgree(e)
  {
    var v6 := |b| == 18 || |b| == 36;
    var n := if v6 then 18 else 6;
    AddressTaken(b, v6);
    AddressTaken(b[n..], v6);
    var primary := BeSocketAddr(b, v6).value;
    if |b| == 2 * n then NatEndpoint(primary, BeSocketAddr(b[n..], v6).value) else DirectEndpoint(primary)
  }

  lemma LegacyParse(b: Bytes)
    requires |b| in {6, 12, 18, 36}
    ensures BeLegacyByLength(b, |b|) == Ok([], LegacyEndpoint(b))
  {
    var v6 := |b| == 18 || |b| == 36;
    var n := if v6 then 18 else 6;
    AddressTaken(b, v6);
    AddressTaken(b[n..], v6);
    assert b[n..][|b| - n..] == [];
  }

  /** Which modern records are as long as a legacy one: those with a one-byte sequence and a
      load, at 12 and 18 bytes, and signed ones. */
  lemma AmbiguousFlags(b: Bytes)
    requires |b| in LEGACY_LENGTHS && ModernLength(b) == Some(|b|)
    ensures |b| != 6
    ensures FlagsOf(b[0]).signed || (FlagsOf(b[0]).clustered && FlagsOf(b[0]).load && |b| != 36)
  {
    var flags := FlagsOf(b[0]);
    assert AddressLength(flags) in LEGACY_LENGTHS;
    assert SequenceLength(b).value in {0, 1, 2, 4, 8};
  }

  /** A legacy record reads as itself exactly when its bytes do not add up to a modern one. */
  lemma LegacyIffNotModern(b: Bytes)
    requires |b| in {6, 12, 18, 36}
    ensures BeCompat(b, |b|) == Ok([], LegacyEndpoint(b)) <==> ModernLength(b) != Some(|b|)
  {
    hide BeEndpoint, BeLegacyByLength, LegacyEndpoint, ModernLength, FlagsOf;
    ModernIffLength(b);
    LegacyParse(b);
    if ModernLength(b) == Some(|b|) {
      AmbiguousFlags(b);
    }
  }

  /** In terms of the first byte alone. */
  lemma LegacyByFirstByte(b: Bytes)
    requires |b| in {6, 12, 18, 36}
    requires |b| == 6 || (!FlagsOf(b[0]).signed && (|b| == 36 || !(FlagsOf(b[0]).clustered && FlagsOf(b[0]).load)))
    ensures BeCompat(b, |b|) == Ok([], LegacyEndpoint(b))
  {
    LegacyIffNotModern(b);
    if ModernLength(b) == Some(|b|) {
      AmbiguousFlags(b);
    }
  }

  /** Some legacy record is taken for a modern one: a NAT record whose outer port is 10240. */
  lemma AmbiguousExample()
    ensures var b: Bytes := [40, 0, 10, 0, 0, 1, 7, 208, 10, 0, 0, 2];
            && FlagsOf(b[0]).clustered && FlagsOf(b[0]).load
            && BeCompat(b, 12) != Ok([], LegacyEndpoint(b))
  {
    hide FlagsOf, BeCompat, LegacyEndpoint;
    var b: Bytes := [40, 0, 10, 0, 0, 1, 7, 208, 10, 0, 0, 2];
    ClusteredLoad();
    assert [b[1] % 64] + b[2..2] == [0];
    assert FromBE([0][..0]) == 0;
    assert ModernLength(b) == Some(12);
    LegacyIffNotModern(b);
  }

  lemma ClusteredLoad()
    ensures FlagsOf(40) == NO_FLAGS.(clustered := true, load := true)
  {
    assert BitAt(40, 1) == BitAt(20, 0) && BitAt(40, 2) == BitAt(10, 0) && BitAt(40, 3) == BitAt(5, 0);
    assert BitAt(40, 4) == BitAt(20, 3) == BitAt(10, 2) == BitAt(5, 1) == BitAt(2, 0);
    assert BitAt(40, 5) == BitAt(20, 4) == BitAt(10, 3) == BitAt(5, 2) == BitAt(2, 1) == BitAt(1, 0);
    assert BitAt(40, 6) == BitAt(20, 5) == BitAt(10, 4) == BitAt(5, 3) == BitAt(2, 2) == BitAt(1, 1) == BitAt(0, 0);
    assert BitAt(40, 7) == BitAt(20, 6) == BitAt(10, 5) == BitAt(5, 4) == BitAt(2, 3) == BitAt(1, 2) == BitAt(0, 1);
  }
}
