/** DNS messages: header, questions and resource records (sections 4.1.1 to 4.1.3 of RFC 1035),
    with the top bit of a class used as sections 5.4 and 10.2 of RFC 6762 define. */
module Packet {
  import opened Bytes
  import opened Names
  import opened NameCodec
  import opened Endpoint
  import VarInt

  datatype Type = TypeA | TypeNs | TypeAAAA | TypeCname | TypeTxt | TypeSrv | TypePtr | TypeE

  datatype Class = IN | CS | CH | HS

  datatype QueryType =
    QueryA | QueryAAAA | QueryCname | QueryTxt | QuerySrv | QueryPtr | QueryE | QueryE6 | QueryEE | QueryEE6

  datatype QueryClass = QueryIN | QueryCS | QueryCH | QueryHS | QueryAny

  datatype RData =
    | A(ip4: Ipv4)
    | AAAA(ip6: Ipv6)
    | CName(alias: Name)
    | Txt(text: Bytes)
    | Srv(priority: u16, weight: u16, port: u16, target: Name)
    | Ptr(pointee: Name)
    | E(endpoint: Endpoint)

  datatype ResourceRecord = ResourceRecord(
    name: Name, typ: Type, multicastUnique: bool, cls: Class, ttl: u32, data: RData)

  datatype Question = Question(name: Name, preferUnicast: bool, qtype: QueryType, qclass: QueryClass)

  datatype Header = Header(
    id: u16, flags: u16, questions: u16, answers: u16, nameservers: u16, additional: u16)

  datatype Packet = Packet(
    header: Header, questions: seq<Question>, answers: seq<ResourceRecord>,
    nameservers: seq<ResourceRecord>, additional: seq<ResourceRecord>)

  function TypeCode(t: Type): u16 {
    match t
    case TypeA => 1 case TypeNs => 2 case TypeAAAA => 28 case TypeCname => 5
    case TypeTxt => 16 case TypeSrv => 33 case TypePtr => 12 case TypeE => 266
  }

  /** Codes 267 to 269 are older names of the E type. */
  function TypeOf(code: u16): Option<Type> {
    if code == 1 then Some(TypeA) else if code == 2 then Some(TypeNs)
    else if code == 28 then Some(TypeAAAA) else if code == 5 then Some(TypeCname)
    else if code == 16 then Some(TypeTxt) else if code == 33 then Some(TypeSrv)
    else if code == 12 then Some(TypePtr) else if 266 <= code <= 269 then Some(TypeE)
    else None
  }

  function ClassCode(c: Class): u16 {
    match c case IN => 1 case CS => 2 case CH => 3 case HS => 4
  }

  function ClassOf(code: u16): Option<Class> {
    var value := code % 0x8000;
    if value == 1 then Some(IN) else if value == 2 then Some(CS)
    else if value == 3 then Some(CH) else if value == 4 then Some(HS)
    else None
  }

  function QueryTypeCode(t: QueryType): u16 {
    match t
    case QueryA => 1 case QueryAAAA => 28 case QueryCname => 5 case QueryTxt => 16 case QuerySrv => 33
    case QueryPtr => 12 case QueryE => 266 case QueryE6 => 267 case QueryEE => 268 case QueryEE6 => 269
  }

  function QueryTypeOf(code: u16): Option<QueryType> {
    if code == 1 then Some(QueryA) else if code == 28 then Some(QueryAAAA)
    else if code == 5 then Some(QueryCname) else if code == 16 then Some(QueryTxt)
    else if code == 33 then Some(QuerySrv) else if code == 12 then Some(QueryPtr)
    else if code == 266 then Some(QueryE) else if code == 267 then Some(QueryE6)
    else if code == 268 then Some(QueryEE) else if code == 269 then Some(QueryEE6)
    else None
  }

  function QueryClassCode(c: QueryClass): u16 {
    match c case QueryIN => 1 case QueryCS => 2 case QueryCH => 3 case QueryHS => 4 case QueryAny => 255
  }

  function QueryClassOf(code: u16): Option<QueryClass> {
    if code == 1 then Some(QueryIN) else if code == 2 then Some(QueryCS)
    else if code == 3 then Some(QueryCH) else if code == 4 then Some(QueryHS)
    else if code == 255 then Some(QueryAny)
    else None
  }

  function TopBit(set_: bool): nat {
    if set_ then 0x8000 else 0
  }

  // ------------------------------------------------------------------------------------------
  // Encoding

  function HeaderBytes(h: Header): (r: Bytes)
    ensures |r| == 12
  {
    BE(h.id, 2) + (BE(h.flags, 2) + (BE(h.questions, 2) +
    (BE(h.answers, 2) + (BE(h.nameservers, 2) + BE(h.additional, 2)))))
  }

  /** The fixed part of a question. */
  function QuestionTail(q: Question): (r: Bytes)
    ensures |r| == 4
  {
    BE(QueryTypeCode(q.qtype), 2) + BE(QueryClassCode(q.qclass) + TopBit(q.preferUnicast), 2)
  }

  /** Type, class word and time to live. */
  function RecordMiddle(typ: u16, cls: u16, ttl: u32): (r: Bytes)
    ensures |r| == 8
  {
    BE(typ, 2) + (BE(cls, 2) + BE(ttl, 4))
  }

  function RDataBytes(start: nat, data: RData, ctx: Compression): Encoded {
    match data
    case A(ip) => Encoded(ip, ctx)
    case AAAA(ip) => Encoded(ip, ctx)
    case CName(name) => EncodeName(start, name, ctx)
    case Txt(text) => Encoded(text, ctx)
    case Srv(priority, weight, port, target) =>
      var name := EncodeName(start + 6, target, ctx);
      Encoded(BE(priority, 2) + (BE(weight, 2) + (BE(port, 2) + name.bytes)), name.ctx)
    case Ptr(name) => EncodeName(start, name, ctx)
    case E(e) => Encoded(EndpointBytes(e), ctx)
  }

  /** What a section may hold: a record, or one of a type this program does not know. */
  datatype Item =
    | Known(record: ResourceRecord)
    | Foreign(owner: Name, typ: u16, cls: u16, ttl: u32, rdata: Bytes)

  function ItemName(item: Item): Name {
    match item case Known(r) => r.name case Foreign(owner, _, _, _, _) => owner
  }

  function ItemMiddle(item: Item): (r: Bytes)
    ensures |r| == 8
  {
    match item
    case Known(r) => RecordMiddle(TypeCode(r.typ), ClassCode(r.cls) + TopBit(r.multicastUnique), r.ttl)
    case Foreign(_, typ, cls, ttl, _) => RecordMiddle(typ, cls, ttl)
  }

  function ItemData(start: nat, item: Item, ctx: Compression): Encoded {
    match item
    case Known(r) => RDataBytes(start, r.data, ctx)
    case Foreign(_, _, _, _, rdata) => Encoded(rdata, ctx)
  }

  /** The message after one more record. */
  function PutItem(st: Encoded, item: Item): Encoded {
    var name := EncodeName(|st.bytes|, ItemName(item), st.ctx);
    var data := ItemData(|st.bytes| + |name.bytes| + 10, item, name.ctx);
    Encoded(st.bytes + name.bytes + ItemMiddle(item) + BE(|data.bytes| % 0x1_0000, 2) + data.bytes, data.ctx)
  }

  function PutItems(st: Encoded, items: seq<Item>): Encoded
    decreases |items|
  {
    if items == [] then st else PutItems(PutItem(st, items[0]), items[1..])
  }

  function PutQuestion(st: Encoded, q: Question): Encoded {
    var name := EncodeName(|st.bytes|, q.name, st.ctx);
    Encoded(st.bytes + name.bytes + QuestionTail(q), name.ctx)
  }

  function PutQuestions(st: Encoded, qs: seq<Question>): Encoded
    decreases |qs|
  {
    if qs == [] then st else PutQuestions(PutQuestion(st, qs[0]), qs[1..])
  }

  function AllKnown(records: seq<ResourceRecord>): (items: seq<Item>)
    ensures |items| == |records|
    ensures forall i :: 0 <= i < |records| ==> items[i] == Known(records[i])
  {
    seq(|records|, i requires 0 <= i < |records| => Known(records[i]))
  }

  /** The whole message: the four sections share one compression context. */
  function PacketBytes(p: Packet): Bytes {
    var st0 := Encoded(HeaderBytes(p.header), map[]);
    var st1 := PutQuestions(st0, p.questions);
    var st2 := PutItems(st1, AllKnown(p.answers));
    var st3 := PutItems(st2, AllKnown(p.nameservers));
    PutItems(st3, AllKnown(p.additional)).bytes
  }

  // ------------------------------------------------------------------------------------------
  // Parsing

  function BeHeader(input: Bytes): Parsed<Header> {
    var (remain, id) :- BeU16(input);
    var (remain, flags) :- BeU16(remain);
    var (remain, questions) :- BeU16(remain);
    var (remain, answers) :- BeU16(remain);
    var (remain, nameservers) :- BeU16(remain);
    var (remain, additional) :- BeU16(remain);
    Ok(remain, Header(id, flags, questions, answers, nameservers, additional))
  }

  function BeQuestion(input: Bytes, origin: Bytes): Parsed<Question> {
    var (remain, name) :- BeName(input, origin);
    var (remain, qtype) :- BeU16(remain);
    var (remain, qclass) :- BeU16(remain);
    if QueryTypeOf(qtype).None? then Error(remain)
    else if QueryClassOf(qclass % 0x8000).None? then Error(remain)
    else Ok(remain, Question(name, qclass >= 0x8000, QueryTypeOf(qtype).value, QueryClassOf(qclass % 0x8000).value))
  }

  function BeSrv(input: Bytes, origin: Bytes): Parsed<RData> {
    var (remain, priority) :- BeU16(input);
    var (remain, weight) :- BeU16(remain);
    var (remain, port) :- BeU16(remain);
    var (remain, target) :- BeName(remain, origin);
    Ok(remain, Srv(priority, weight, port, target))
  }

  function BeRData(input: Bytes, origin: Bytes, typ: Type, rdlen: u16): Parsed<RData> {
    match typ
    case TypeA => var (remain, ip) :- Take(input, 4); Ok(remain, A(ip))
    case TypeAAAA => var (remain, ip) :- Take(input, 16); Ok(remain, AAAA(ip))
    case TypeCname => var (remain, name) :- BeName(input, origin); Ok(remain, CName(name))
    case TypeTxt => var (remain, text) :- Take(input, rdlen); Ok(remain, Txt(text))
    case TypeSrv => BeSrv(input, origin)
    case TypePtr => var (remain, name) :- BeName(input, origin); Ok(remain, Ptr(name))
    case TypeNs => var (remain, name) :- BeName(input, origin); Ok(remain, CName(name))
    case TypeE => var (remain, e) :- BeCompat(input, rdlen); Ok(remain, E(e))
  }

  datatype RecordHead = RecordHead(name: Name, typ: u16, cls: u16, ttl: u32, rdlen: u16)

  function BeRecordHead(input: Bytes, origin: Bytes): Parsed<RecordHead> {
    var (remain, name) :- BeName(input, origin);
    var (remain, typ) :- BeU16(remain);
    var (remain, cls) :- BeU16(remain);
    var (remain, ttl) :- BeU32(remain);
    var (remain, rdlen) :- BeU16(remain);
    Ok(remain, RecordHead(name, typ, cls, ttl, rdlen))
  }

  /** The class is looked at last, and an unknown one skips RDLENGTH bytes past the record. */
  function BeClass(remain: Bytes, cls: u16, rdlen: u16): Parsed<Class> {
    if ClassOf(cls % 0x8000).Some? then Ok(remain, ClassOf(cls % 0x8000).value)
    else if |remain| < rdlen then Incomplete
    else Error(remain[rdlen..])
  }

  function BeRecord(input: Bytes, origin: Bytes): Parsed<ResourceRecord> {
    var (remain, head) :- BeRecordHead(input, origin);
    if |remain| < head.rdlen then Incomplete
    else if TypeOf(head.typ).None? then Error(remain[head.rdlen..])
    else
      var typ := TypeOf(head.typ).value;
      var after := remain[head.rdlen..];
      var (rdataRemain, rdata) :- BeRData(remain[..head.rdlen], origin, typ, head.rdlen);
      if rdataRemain != [] then Error(after)
      else
        var (after, cls) :- BeClass(after, head.cls, head.rdlen);
        Ok(after, ResourceRecord(head.name, typ, head.cls >= 0x8000, cls, head.ttl, rdata))
  }

  datatype Section<+T> = Section(rest: Bytes, records: seq<T>)

  /** At most `count` records; after a recoverable error it goes on from where the error points. */
  function ParseSection<T>(
    input: Bytes, original: Bytes, count: nat, parser: (Bytes, Bytes) -> Parsed<T>): Section<T>
    decreases count
  {
    if count == 0 then Section(input, [])
    else
      match parser(input, original)
      case Ok(rest, record) =>
        var s := ParseSection(rest, original, count - 1, parser);
        Section(s.rest, [record] + s.records)
      case Error(at) => ParseSection(at, original, count - 1, parser)
      case _ => Section(input, [])
  }

  const MIN_QUESTION_WIRE_LEN := 5
  const MIN_RESOURCE_RECORD_WIRE_LEN := 11

  function MinimumWireLength(h: Header): nat {
    h.questions * MIN_QUESTION_WIRE_LEN +
    (h.answers + h.nameservers + h.additional) * MIN_RESOURCE_RECORD_WIRE_LEN
  }

  function ValidateSectionCounts(input: Bytes, h: Header): Parsed<()> {
    if MinimumWireLength(h) > |input| then Failure(input) else Ok(input, ())
  }

  function BePacket(input: Bytes): Parsed<Packet> {
    var (remain, header) :- BeHeader(input);
    var (remain, _) :- ValidateSectionCounts(remain, header);
    var questions := ParseSection(remain, input, header.questions, BeQuestion);
    var answers := ParseSection(questions.rest, input, header.answers, BeRecord);
    var nameservers := ParseSection(answers.rest, input, header.nameservers, BeRecord);
    var additional := ParseSection(nameservers.rest, input, header.additional, BeRecord);
    Ok(additional.rest,
       Packet(header, questions.records, answers.records, nameservers.records, additional.records))
  }

  /** The section loop of the program. */
  method ParseLoop<T>(start: Bytes, original: Bytes, count: u16, parser: (Bytes, Bytes) -> Parsed<T>)
    returns (input: Bytes, records: seq<T>)
    ensures Section(input, records) == ParseSection(start, original, count, parser)
  {
    input, records := start, [];
    for i := 0 to count
      invariant var s := ParseSection(input, original, count - i, parser);
                ParseSection(start, original, count, parser) == Section(s.rest, records + s.records)
    {
      ghost var s := ParseSection(input, original, count - i, parser);
      match parser(input, original)
      case Ok(rest, record) =>
        ghost var s' := ParseSection(rest, original, count - i - 1, parser);
        assert records + ([record] + s'.records) == records + [record] + s'.records;
        records := records + [record];
        input := rest;
      case Error(at) =>
        input := at;
      case _ =>
        assert records + [] == records;
        return;
    }
    assert records + [] == records;
  }

  // ------------------------------------------------------------------------------------------
  // The writers of the program

  method WriteBase(buf: Buffer, e: Endpoint)
    modifies buf
    ensures buf.bytes == old(buf.bytes) + BaseBytes(e)
  {
    hide AddressBytes, VarInt.Encode, FlagsByte, BE;
    ghost var was := buf.bytes;
    buf.Put([FlagsByte(e.flags)]);
    if e.sequence.Some? {
      buf.Put(VarInt.Encode(e.sequence.value));
    }
    assert buf.bytes == was + [FlagsByte(e.flags)] + SequenceBytes(e.sequence);
    buf.Put(AddressBytes(e.primary));
    if e.agent.Some? {
      buf.Put(AddressBytes(e.agent.value));
    }
    if e.load.Some? {
      buf.Put(BE(e.load.value, 4));
    }
  }

  method PutSignature(buf: Buffer, s: Signature)
    modifies buf
    ensures buf.bytes == old(buf.bytes) + SignatureBytes(s)
  {
    hide VarInt.Encode, BE, LengthVarInt;
    buf.Put(BE(s.scheme, 2));
    buf.Put(VarInt.Encode(LengthVarInt(|s.bytes|)));
    buf.Put(s.bytes);
  }

  method PutEndpointAddr(buf: Buffer, e: Endpoint)
    modifies buf
    ensures buf.bytes == old(buf.bytes) + EndpointBytes(e)
  {
    hide BaseBytes, SignatureBytes;
    ghost var was := buf.bytes;
    WriteBase(buf, e);
    if e.flags.signed && e.signature.Some? {
      PutSignature(buf, e.signature.value);
      ghost var signature := SignatureBytes(e.signature.value);
      assert was + BaseBytes(e) + signature == was + (BaseBytes(e) + signature);
    } else {
      assert BaseBytes(e) + [] == BaseBytes(e);
    }
  }

  method PutSrv(buf: Buffer, srv: RData, ctx: NameCompression)
    requires srv.Srv?
    modifies buf, ctx
    ensures var d := RDataBytes(|old(buf.bytes)|, srv, old(ctx.suffixOffsets));
            buf.bytes == old(buf.bytes) + d.bytes && ctx.suffixOffsets == d.ctx
  {
    buf.Put(BE(srv.priority, 2));
    buf.Put(BE(srv.weight, 2));
    buf.Put(BE(srv.port, 2));
    var _ := PutName(buf, srv.target, ctx);
  }

  method PutRData(buf: Buffer, data: RData, ctx: NameCompression)
    modifies buf, ctx
    ensures var d := RDataBytes(|old(buf.bytes)|, data, old(ctx.suffixOffsets));
            buf.bytes == old(buf.bytes) + d.bytes && ctx.suffixOffsets == d.ctx
  {
    match data
    case A(ip) => buf.Put(ip);
    case AAAA(ip) => buf.Put(ip);
    case CName(name) => var _ := PutName(buf, name, ctx);
    case Txt(text) => buf.Put(text);
    case Srv(_, _, _, _) => PutSrv(buf, data, ctx);
    case Ptr(name) => var _ := PutName(buf, name, ctx);
    case E(e) => PutEndpointAddr(buf, e);
  }

  /** Writes a placeholder for RDLENGTH and patches it once the data is there. */
  method PutRecord(buf: Buffer, record: ResourceRecord, ctx: NameCompression)
    modifies buf, ctx
    ensures Encoded(buf.bytes, ctx.suffixOffsets) ==
            PutItem(Encoded(old(buf.bytes), old(ctx.suffixOffsets)), Known(record))
  {
    hide EncodeName, RDataBytes, BE;
    ghost var was := buf.bytes;
    ghost var name := EncodeName(|buf.bytes|, record.name, ctx.suffixOffsets);
    var _ := PutName(buf, record.name, ctx);
    buf.Put(BE(TypeCode(record.typ), 2));
    buf.Put(BE(ClassCode(record.cls) + TopBit(record.multicastUnique), 2));
    buf.Put(BE(record.ttl, 4));
    ghost var head := was + name.bytes + ItemMiddle(Known(record));
    assert buf.bytes == head;

    var rdlenPos := |buf.bytes|;
    buf.Put(BE(0, 2));
    var rdataStart := |buf.bytes|;
    ghost var start := rdataStart;
    ghost var data := RDataBytes(start, record.data, ctx.suffixOffsets);
    PutRData(buf, record.data, ctx);

    var rdlen := (|buf.bytes| - rdataStart) % 0x1_0000;
    buf.Patch(rdlenPos, BE(rdlen, 2)[0]);
    buf.Patch(rdlenPos + 1, BE(rdlen, 2)[1]);
    assert start == |was| + |name.bytes| + 10;
    assert buf.bytes == head + BE(rdlen, 2) + data.bytes;
  }

  method WriteQuestion(buf: Buffer, q: Question, ctx: NameCompression)
    modifies buf, ctx
    ensures Encoded(buf.bytes, ctx.suffixOffsets) ==
            PutQuestion(Encoded(old(buf.bytes), old(ctx.suffixOffsets)), q)
  {
    var _ := PutName(buf, q.name, ctx);
    buf.Put(BE(QueryTypeCode(q.qtype), 2));
    var qclass := QueryClassCode(q.qclass);
    if q.preferUnicast {
      qclass := qclass + 0x8000;
    }
    buf.Put(BE(qclass, 2));
  }

  method WriteRecords(buf: Buffer, records: seq<ResourceRecord>, ctx: NameCompression)
    modifies buf, ctx
    ensures Encoded(buf.bytes, ctx.suffixOffsets) ==
            PutItems(Encoded(old(buf.bytes), old(ctx.suffixOffsets)), AllKnown(records))
  {
    ghost var items := AllKnown(records);
    assert items[0..] == items;
    for i := 0 to |records|
      invariant PutItems(Encoded(buf.bytes, ctx.suffixOffsets), items[i..]) ==
                PutItems(Encoded(old(buf.bytes), old(ctx.suffixOffsets)), items)
    {
      assert items[i..][1..] == items[i + 1..];
      PutRecord(buf, records[i], ctx);
    }
  }

  method ToBytes(p: Packet) returns (message: Bytes)
    ensures message == PacketBytes(p)
  {
    var buf := new Buffer();
    var ctx := new NameCompression();
    buf.Put(HeaderBytes(p.header));
    ghost var st0 := Encoded(HeaderBytes(p.header), map[]);
    assert buf.bytes == HeaderBytes(p.header);
    assert p.questions[0..] == p.questions;
    for i := 0 to |p.questions|
      invariant PutQuestions(Encoded(buf.bytes, ctx.suffixOffsets), p.questions[i..]) ==
                PutQuestions(st0, p.questions)
    {
      assert p.questions[i..][1..] == p.questions[i + 1..];
      WriteQuestion(buf, p.questions[i], ctx);
    }
    WriteRecords(buf, p.answers, ctx);
    WriteRecords(buf, p.nameservers, ctx);
    WriteRecords(buf, p.additional, ctx);
    message := buf.bytes;
  }
}
