/** Messages read back as written, and sections recover from records of unknown type. */
module PacketProofs {
  import opened Bytes
  import opened Names
  import opened NameCodec
  import opened NameRoundTrip
  import opened Endpoint
  import opened Packet
  import EndpointProofs

  ghost predicate NameOk(name: Name) {
    ShortLabels(Labels(name))
  }

  /** A name that fits in RDATA next to `extra` bytes, compressed or not. */
  ghost predicate NameFits(name: Name, extra: nat) {
    NameOk(name) && |Join(Labels(name))| + 2 + extra < 0x1_0000
  }

  /** RDATA of the announced type whose length fits RDLENGTH. */
  ghost predicate DataOk(typ: Type, data: RData) {
    match data
    case A(_) => typ == TypeA
    case AAAA(_) => typ == TypeAAAA
    case CName(name) => (typ == TypeCname || typ == TypeNs) && NameFits(name, 0)
    case Txt(text) => typ == TypeTxt && |text| < 0x1_0000
    case Srv(_, _, _, target) => typ == TypeSrv && NameFits(target, 6)
    case Ptr(name) => typ == TypePtr && NameFits(name, 0)
    case E(e) => typ == TypeE && Decodable(e) && |EndpointBytes(e)| < 0x1_0000
  }

  ghost predicate RecordOk(r: ResourceRecord) {
    NameOk(r.name) && DataOk(r.typ, r.data)
  }

  ghost predicate ItemOk(item: Item) {
    match item
    case Known(r) => RecordOk(r)
    case Foreign(owner, typ, _, _, rdata) => NameOk(owner) && TypeOf(typ).None? && |rdata| < 0x1_0000
  }

  /** Names in normal form, and of an address only what is written. */
  function NormalData(data: RData): RData {
    match data
    case CName(name) => CName(Normal(name))
    case Srv(priority, weight, port, target) => Srv(priority, weight, port, Normal(target))
    case Ptr(name) => Ptr(Normal(name))
    case E(e) => E(Stripped(e))
    case _ => data
  }

  function NormalRecord(r: ResourceRecord): ResourceRecord {
    r.(name := Normal(r.name), data := NormalData(r.data))
  }

  function NormalQuestion(q: Question): Question {
    q.(name := Normal(q.name))
  }

  lemma Drop(a: Bytes, b: Bytes, origin: Bytes)
    requires a + b <= origin
    ensures origin[|a|..] == b + origin[|a + b|..]
  {
    var rest := origin[|a + b|..];
    assert origin == a + b + rest;
  }

  /** Five pieces in a row, seen from the first one on. */
  lemma Layout(a: Bytes, b: Bytes, c: Bytes, d: Bytes, e: Bytes, origin: Bytes)
    requires a + b + c + d + e <= origin
    ensures origin[|a|..] == b + (c + (d + (e + origin[|a + b + c + d + e|..])))
  {
    var added := b + (c + (d + e));
    assert a + b + c + d + e == a + added;
    Drop(a, added, origin);
  }

  // ------------------------------------------------------------------------------------------
  // Fields

  lemma ReadHeader(h: Header, rest: Bytes)
    ensures BeHeader(HeaderBytes(h) + rest) == Ok(rest, h)
  {
    hide BE, BeU16;
    var r5 := BE(h.additional, 2) + rest;
    var r4 := BE(h.nameservers, 2) + r5;
    var r3 := BE(h.answers, 2) + r4;
    var r2 := BE(h.questions, 2) + r3;
    var r1 := BE(h.flags, 2) + r2;
    assert HeaderBytes(h) + rest == BE(h.id, 2) + r1;
    ReadU16(h.id, r1);
    ReadU16(h.flags, r2);
    ReadU16(h.questions, r3);
    ReadU16(h.answers, r4);
    ReadU16(h.nameservers, r5);
    ReadU16(h.additional, rest);
  }

  lemma Codes(t: Type, c: Class, flag: bool)
    ensures TypeOf(TypeCode(t)) == Some(t)
    ensures var word := ClassCode(c) + TopBit(flag);
            && ClassOf(word % 0x8000) == Some(c)
            && (word >= 0x8000 <==> flag)
  {
  }

  /** The record types there are, with their codes: all four codes from 266 on are E records. */
  lemma TypeTable(code: u16)
    ensures TypeOf(code) == Some(TypeA) <==> code == 1
    ensures TypeOf(code) == Some(TypeNs) <==> code == 2
    ensures TypeOf(code) == Some(TypeCname) <==> code == 5
    ensures TypeOf(code) == Some(TypePtr) <==> code == 12
    ensures TypeOf(code) == Some(TypeTxt) <==> code == 16
    ensures TypeOf(code) == Some(TypeAAAA) <==> code == 28
    ensures TypeOf(code) == Some(TypeSrv) <==> code == 33
    ensures TypeOf(code) == Some(TypeE) <==> code in {266, 267, 268, 269}
    ensures TypeOf(code).None? <==> code !in {1, 2, 5, 12, 16, 28, 33, 266, 267, 268, 269}
    ensures TypeCode(TypeE) == 266
  {
  }

  /** The classes there are; the top bit of the word is not part of a class. */
  lemma ClassTable(word: u16)
    ensures ClassOf(word) == Some(IN) <==> word in {1, 0x8001}
    ensures ClassOf(word) == Some(CS) <==> word in {2, 0x8002}
    ensures ClassOf(word) == Some(CH) <==> word in {3, 0x8003}
    ensures ClassOf(word) == Some(HS) <==> word in {4, 0x8004}
    ensures ClassOf(word).None? <==> word % 0x8000 !in {1, 2, 3, 4}
  {
  }

  /** The codes of queries: here the four from 266 on are told apart. */
  lemma QueryTable(code: u16)
    ensures QueryTypeOf(code) == Some(QueryA) <==> code == 1
    ensures QueryTypeOf(code) == Some(QueryCname) <==> code == 5
    ensures QueryTypeOf(code) == Some(QueryPtr) <==> code == 12
    ensures QueryTypeOf(code) == Some(QueryTxt) <==> code == 16
    ensures QueryTypeOf(code) == Some(QueryAAAA) <==> code == 28
    ensures QueryTypeOf(code) == Some(QuerySrv) <==> code == 33
    ensures QueryTypeOf(code) == Some(QueryE) <==> code == 266
    ensures QueryTypeOf(code) == Some(QueryE6) <==> code == 267
    ensures QueryTypeOf(code) == Some(QueryEE) <==> code == 268
    ensures QueryTypeOf(code) == Some(QueryEE6) <==> code == 269
    ensures QueryTypeOf(code).None? <==> code !in {1, 5, 12, 16, 28, 33, 266, 267, 268, 269}
    ensures QueryClassOf(code) == Some(QueryIN) <==> code == 1
    ensures QueryClassOf(code) == Some(QueryCS) <==> code == 2
    ensures QueryClassOf(code) == Some(QueryCH) <==> code == 3
    ensures QueryClassOf(code) == Some(QueryHS) <==> code == 4
    ensures QueryClassOf(code) == Some(QueryAny) <==> code == 255
    ensures QueryClassOf(code).None? <==> code !in {1, 2, 3, 4, 255}
  {
  }

  lemma QueryCodes(t: QueryType, c: QueryClass, flag: bool)
    ensures QueryTypeOf(QueryTypeCode(t)) == Some(t)
    ensures var word := QueryClassCode(c) + TopBit(flag);
            && QueryClassOf(word % 0x8000) == Some(c)
            && (word >= 0x8000 <==> flag)
  {
  }

  lemma ReadQuestion(buf: Bytes, q: Question, ctx: Compression, tail: Bytes, origin: Bytes)
    requires Sound(ctx, buf) && NameOk(q.name)
    requires buf + EncodeName(|buf|, q.name, ctx).bytes <= origin
    ensures BeQuestion(EncodeName(|buf|, q.name, ctx).bytes + (QuestionTail(q) + tail), origin) ==
            Ok(tail, NormalQuestion(q))
  {
    hide BE, BeU16, EncodeName, BeName, QueryTypeOf, QueryClassOf, QueryTypeCode;
    var qclass := QueryClassCode(q.qclass) + TopBit(q.preferUnicast);
    var r := BE(qclass, 2) + tail;
    assert QuestionTail(q) + tail == BE(QueryTypeCode(q.qtype), 2) + r;
    ReadName(buf, q.name, ctx, QuestionTail(q) + tail, origin);
    ReadU16(QueryTypeCode(q.qtype), r);
    ReadU16(qclass, tail);
    QueryCodes(q.qtype, q.qclass, q.preferUnicast);
  }

  /** A question of unknown type or class is an error that points behind it, so that its section
      goes on there. */
  lemma QuestionOutcome(input: Bytes, origin: Bytes, name: Name, typ: u16, cls: u16, rest: Bytes)
    requires BeName(input, origin) == Ok(BE(typ, 2) + (BE(cls, 2) + rest), name)
    ensures BeQuestion(input, origin) ==
            if QueryTypeOf(typ).None? || QueryClassOf(cls % 0x8000).None? then Error(rest)
            else Ok(rest, Question(name, cls >= 0x8000, QueryTypeOf(typ).value, QueryClassOf(cls % 0x8000).value))
  {
    hide BE, BeU16, BeName, QueryTypeOf, QueryClassOf;
    ReadU16(typ, BE(cls, 2) + rest);
    ReadU16(cls, rest);
  }

  lemma ReadHead(
    buf: Bytes, name: Name, ctx: Compression, h: RecordHead, tail: Bytes, origin: Bytes)
    requires Sound(ctx, buf) && NameOk(name) && h.name == Normal(name)
    requires buf + EncodeName(|buf|, name, ctx).bytes <= origin
    ensures var n := EncodeName(|buf|, name, ctx).bytes;
            BeRecordHead(n + (RecordMiddle(h.typ, h.cls, h.ttl) + (BE(h.rdlen, 2) + tail)), origin) == Ok(tail, h)
  {
    hide BE, BeU16, BeU32, EncodeName, BeName;
    var r3 := BE(h.rdlen, 2) + tail;
    var r2 := BE(h.ttl, 4) + r3;
    var r1 := BE(h.cls, 2) + r2;
    assert RecordMiddle(h.typ, h.cls, h.ttl) + r3 == BE(h.typ, 2) + r1;
    ReadName(buf, name, ctx, BE(h.typ, 2) + r1, origin);
    ReadU16(h.typ, r1);
    ReadU16(h.cls, r2);
    ReadU32(h.ttl, r3);
    ReadU16(h.rdlen, tail);
  }

  lemma ReadNameExactly(buf: Bytes, name: Name, ctx: Compression, extra: nat, origin: Bytes)
    requires Sound(ctx, buf) && NameFits(name, extra)
    requires buf + EncodeName(|buf|, name, ctx).bytes <= origin
    ensures var e := EncodeName(|buf|, name, ctx);
            && BeName(e.bytes, origin) == Ok([], Normal(name))
            && Sound(e.ctx, buf + e.bytes)
            && |e.bytes| + extra < 0x1_0000
  {
    var e := EncodeName(|buf|, name, ctx);
    ReadName(buf, name, ctx, [], origin);
    assert e.bytes + [] == e.bytes;
    WriteNameSound(buf, name, ctx);
    EncodedLength(|buf|, Labels(name), ctx);
  }

  lemma ReadSrv(buf: Bytes, data: RData, ctx: Compression, origin: Bytes)
    requires Sound(ctx, buf) && data.Srv? && NameFits(data.target, 6)
    requires buf + RDataBytes(|buf|, data, ctx).bytes <= origin
    ensures var d := RDataBytes(|buf|, data, ctx);
            && BeSrv(d.bytes, origin) == Ok([], NormalData(data))
            && Sound(d.ctx, buf + d.bytes)
            && |d.bytes| < 0x1_0000
  {
    hide BE, BeU16, EncodeName, BeName;
    var fixed := BE(data.priority, 2) + (BE(data.weight, 2) + BE(data.port, 2));
    var buf' := buf + fixed;
    var start := |buf'|;
    assert start == |buf| + 6;
    var name := EncodeName(start, data.target, ctx);
    var d := RDataBytes(|buf|, data, ctx);
    assert d.bytes == fixed + name.bytes;
    assert buf + d.bytes == buf' + name.bytes;
    SoundGrows(ctx, buf, buf');
    ReadNameExactly(buf', data.target, ctx, 6, origin);
    var r2 := BE(data.port, 2) + name.bytes;
    var r1 := BE(data.weight, 2) + r2;
    assert d.bytes == BE(data.priority, 2) + r1;
    ReadU16(data.priority, r1);
    ReadU16(data.weight, r2);
    ReadU16(data.port, name.bytes);
  }

  lemma TakeAll(b: Bytes)
    ensures Take(b, |b|) == Ok([], b)
  {
    assert b[..|b|] == b;
  }

  /** RDATA reads back, whatever its type, and keeps the compression context sound. */
  lemma ReadData(buf: Bytes, typ: Type, data: RData, ctx: Compression, origin: Bytes)
    requires Sound(ctx, buf) && DataOk(typ, data)
    requires buf + RDataBytes(|buf|, data, ctx).bytes <= origin
    ensures var d := RDataBytes(|buf|, data, ctx);
            && |d.bytes| < 0x1_0000
            && BeRData(d.bytes, origin, typ, |d.bytes|) == Ok([], NormalData(data))
            && Sound(d.ctx, buf + d.bytes)
  {
    hide EncodeName, BeName, BeSrv, BeCompat, EndpointBytes, Decodable, Stripped;
    match data
    case A(ip) => TakeAll(ip); SoundGrows(ctx, buf, buf + ip);
    case AAAA(ip) => TakeAll(ip); SoundGrows(ctx, buf, buf + ip);
    case CName(name) => ReadNameExactly(buf, name, ctx, 0, origin);
    case Txt(text) => TakeAll(text); SoundGrows(ctx, buf, buf + text);
    case Srv(_, _, _, _) => ReadSrv(buf, data, ctx, origin);
    case Ptr(name) => ReadNameExactly(buf, name, ctx, 0, origin);
    case E(e) =>
      EndpointProofs.CompatReadsModern(e);
      SoundGrows(ctx, buf, buf + EndpointBytes(e));
  }

  lemma ReadItemData(buf: Bytes, item: Item, ctx: Compression, origin: Bytes)
    requires Sound(ctx, buf) && ItemOk(item)
    requires buf + ItemData(|buf|, item, ctx).bytes <= origin
    ensures var d := ItemData(|buf|, item, ctx);
            && |d.bytes| < 0x1_0000
            && (item.Known? ==>
                  BeRData(d.bytes, origin, item.record.typ, |d.bytes|) == Ok([], NormalData(item.record.data)))
            && Sound(d.ctx, buf + d.bytes)
  {
    if item.Known? {
      ReadData(buf, item.record.typ, item.record.data, ctx, origin);
    } else {
      SoundGrows(ctx, buf, buf + item.rdata);
    }
  }

  // ------------------------------------------------------------------------------------------
  // Records

  /** What the record parser makes of an item: the record, or an error that points behind it. */
  function ItemResult(item: Item, after: Bytes): Parsed<ResourceRecord> {
    match item
    case Known(r) => Ok(after, NormalRecord(r))
    case Foreign(_, _, _, _, _) => Error(after)
  }

  function ItemHead(item: Item, rdlen: u16): RecordHead {
    match item
    case Known(r) =>
      RecordHead(Normal(r.name), TypeCode(r.typ), ClassCode(r.cls) + TopBit(r.multicastUnique), r.ttl, rdlen)
    case Foreign(owner, typ, cls, ttl, _) => RecordHead(Normal(owner), typ, cls, ttl, rdlen)
  }

  /** The record parser, once the head is read. */
  lemma RecordAfterHead(input: Bytes, origin: Bytes, item: Item, data: Bytes, after: Bytes)
    requires |data| < 0x1_0000 && ItemOk(item)
    requires BeRecordHead(input, origin) == Ok(data + after, ItemHead(item, |data|))
    requires item.Known? ==>
               BeRData(data, origin, item.record.typ, |data|) == Ok([], NormalData(item.record.data))
    ensures BeRecord(input, origin) == ItemResult(item, after)
  {
    hide BeRecordHead, BeRData, TypeOf, TypeCode, ClassOf, ClassCode, DataOk;
    var remain := data + after;
    assert remain[..|data|] == data && remain[|data|..] == after;
    if item.Known? {
      Codes(item.record.typ, item.record.cls, item.record.multicastUnique);
    }
  }

  /** One record: it reads back from any extension of the message, wherever it ends. */
  lemma ItemStep(st: Encoded, item: Item, origin: Bytes)
    requires Sound(st.ctx, st.bytes) && ItemOk(item) && PutItem(st, item).bytes <= origin
    ensures var st' := PutItem(st, item);
            && st.bytes <= st'.bytes && |st'.bytes| >= |st.bytes| + 11
            && Sound(st'.ctx, st'.bytes)
            && BeRecord(origin[|st.bytes|..], origin) == ItemResult(item, origin[|st'.bytes|..])
  {
    hide BE, EncodeName, ItemData, BeRecord, BeRecordHead, BeRData, ItemMiddle;
    hide Sound, ItemOk, ItemHead, ItemResult, ItemName, Meaning, RunLength;
    ItemNameOk(item);
    var st' := PutItem(st, item);
    var name := EncodeName(|st.bytes|, ItemName(item), st.ctx);
    var named := st.bytes + name.bytes;
    WriteNameSound(st.bytes, ItemName(item), st.ctx);
    var start := |st.bytes| + |name.bytes| + 10;
    var data := ItemData(start, item, name.ctx);
    var n := |data.bytes| % 0x1_0000;
    var buf := named + ItemMiddle(item) + BE(n, 2);
    assert |buf| == start;
    assert st'.bytes == buf + data.bytes;
    SoundGrows(name.ctx, named, buf);
    ReadItemData(buf, item, name.ctx, origin);
    var after := origin[|st'.bytes|..];
    Layout(st.bytes, name.bytes, ItemMiddle(item), BE(n, 2), data.bytes, origin);
    ReadItemHead(st.bytes, item, st.ctx, n, data.bytes + after, origin);
    RecordAfterHead(origin[|st.bytes|..], origin, item, data.bytes, after);
  }

  lemma ItemNameOk(item: Item)
    requires ItemOk(item)
    ensures NameOk(ItemName(item))
  {
  }

  lemma ReadItemHead(buf: Bytes, item: Item, ctx: Compression, rdlen: u16, tail: Bytes, origin: Bytes)
    requires Sound(ctx, buf) && NameOk(ItemName(item))
    requires buf + EncodeName(|buf|, ItemName(item), ctx).bytes <= origin
    ensures var name := EncodeName(|buf|, ItemName(item), ctx).bytes;
            BeRecordHead(name + (ItemMiddle(item) + (BE(rdlen, 2) + tail)), origin) == Ok(tail, ItemHead(item, rdlen))
  {
    hide BE, EncodeName, BeRecordHead, RecordMiddle, Sound, Normal, ShortLabels, Labels;
    ReadHead(buf, ItemName(item), ctx, ItemHead(item, rdlen), tail, origin);
  }

  function KnownRecords(items: seq<Item>): seq<ResourceRecord> {
    if items == [] then []
    else if items[0].Known? then [NormalRecord(items[0].record)] + KnownRecords(items[1..])
    else KnownRecords(items[1..])
  }

  function Before<T>(records: seq<T>, s: Section<T>): Section<T> {
    Section(s.rest, records + s.records)
  }

  /** A section starts with exactly the known records of what is written first, in order, and
      goes on from there. */
  lemma {:induction false} SectionStarts(st: Encoded, items: seq<Item>, origin: Bytes, count: nat, more: nat)
    requires Sound(st.ctx, st.bytes) && PutItems(st, items).bytes <= origin
    requires forall i :: 0 <= i < |items| ==> ItemOk(items[i])
    requires count == |items| + more
    ensures var st' := PutItems(st, items);
            && st.bytes <= st'.bytes && |st'.bytes| >= |st.bytes| + 11 * |items|
            && Sound(st'.ctx, st'.bytes)
            && ParseSection(origin[|st.bytes|..], origin, count, BeRecord) ==
               Before(KnownRecords(items), ParseSection(origin[|st'.bytes|..], origin, more, BeRecord))
    decreases |items|
  {
    hide PutItem, BeRecord, ItemOk, Sound, ParseSection, ItemResult, Before;
    if items == [] {
      BeforeNothing(ParseSection(origin[|st.bytes|..], origin, more, BeRecord));
    } else {
      var st1, st' := PutItem(st, items[0]), PutItems(st, items);
      PutItemsGrow(st1, items[1..]);
      ItemStep(st, items[0], origin);
      SectionStarts(st1, items[1..], origin, count - 1, more);
      var s := ParseSection(origin[|st'.bytes|..], origin, more, BeRecord);
      SectionStep(origin[|st.bytes|..], origin, count, items, origin[|st1.bytes|..], s);
    }
  }

  lemma BeforeNothing<T>(s: Section<T>)
    ensures Before([], s) == s
  {
    assert [] + s.records == s.records;
  }

  lemma SectionStep(
    input: Bytes, origin: Bytes, count: nat, items: seq<Item>, after: Bytes, s: Section<ResourceRecord>)
    requires items != [] && count > 0 && BeRecord(input, origin) == ItemResult(items[0], after)
    requires ParseSection(after, origin, count - 1, BeRecord) == Before(KnownRecords(items[1..]), s)
    ensures ParseSection(input, origin, count, BeRecord) == Before(KnownRecords(items), s)
  {
    hide BeRecord, NormalRecord;
    if items[0].Known? {
      var head, tail := [NormalRecord(items[0].record)], KnownRecords(items[1..]);
      assert head + (tail + s.records) == head + tail + s.records;
    }
  }

  /** A section decodes to exactly its known records, in order, whatever is between them. */
  lemma SectionRoundTrip(st: Encoded, items: seq<Item>, origin: Bytes)
    requires Sound(st.ctx, st.bytes) && PutItems(st, items).bytes <= origin
    requires forall i :: 0 <= i < |items| ==> ItemOk(items[i])
    ensures var st' := PutItems(st, items);
            && st.bytes <= st'.bytes && |st'.bytes| >= |st.bytes| + 11 * |items|
            && Sound(st'.ctx, st'.bytes)
            && ParseSection(origin[|st.bytes|..], origin, |items|, BeRecord) ==
               Section(origin[|st'.bytes|..], KnownRecords(items))
  {
    hide PutItems, BeRecord, ItemOk, Sound, KnownRecords;
    SectionStarts(st, items, origin, |items|, 0);
    assert KnownRecords(items) + [] == KnownRecords(items);
  }

  lemma {:induction false} PutItemsGrow(st: Encoded, items: seq<Item>)
    ensures st.bytes <= PutItems(st, items).bytes
    decreases |items|
  {
    if items != [] {
      PutItemsGrow(PutItem(st, items[0]), items[1..]);
    }
  }

  lemma QuestionStep(st: Encoded, q: Question, origin: Bytes)
    requires Sound(st.ctx, st.bytes) && NameOk(q.name) && PutQuestion(st, q).bytes <= origin
    ensures var st' := PutQuestion(st, q);
            && st.bytes <= st'.bytes && |st'.bytes| >= |st.bytes| + 5
            && Sound(st'.ctx, st'.bytes)
            && BeQuestion(origin[|st.bytes|..], origin) == Ok(origin[|st'.bytes|..], NormalQuestion(q))
  {
    hide EncodeName, QuestionTail, BeQuestion;
    var st' := PutQuestion(st, q);
    var name := EncodeName(|st.bytes|, q.name, st.ctx);
    WriteNameSound(st.bytes, q.name, st.ctx);
    SoundGrows(name.ctx, st.bytes + name.bytes, st'.bytes);
    var after := origin[|st'.bytes|..];
    assert origin[|st.bytes|..] == name.bytes + (QuestionTail(q) + after) by {
      assert st'.bytes == st.bytes + (name.bytes + QuestionTail(q));
      Drop(st.bytes, name.bytes + QuestionTail(q), origin);
    }
    ReadQuestion(st.bytes, q, st.ctx, after, origin);
  }

  function NormalQuestions(qs: seq<Question>): seq<Question> {
    if qs == [] then [] else [NormalQuestion(qs[0])] + NormalQuestions(qs[1..])
  }

  lemma {:induction false} PutQuestionsGrow(st: Encoded, qs: seq<Question>)
    ensures st.bytes <= PutQuestions(st, qs).bytes
    decreases |qs|
  {
    if qs != [] {
      PutQuestionsGrow(PutQuestion(st, qs[0]), qs[1..]);
    }
  }

  lemma {:induction false} QuestionsRoundTrip(st: Encoded, qs: seq<Question>, origin: Bytes)
    requires Sound(st.ctx, st.bytes) && PutQuestions(st, qs).bytes <= origin
    requires forall i :: 0 <= i < |qs| ==> NameOk(qs[i].name)
    ensures var st' := PutQuestions(st, qs);
            && st.bytes <= st'.bytes && |st'.bytes| >= |st.bytes| + 5 * |qs|
            && Sound(st'.ctx, st'.bytes)
            && ParseSection(origin[|st.bytes|..], origin, |qs|, BeQuestion) ==
               Section(origin[|st'.bytes|..], NormalQuestions(qs))
    decreases |qs|
  {
    hide PutQuestion, BeQuestion, NameOk, Sound;
    if qs != [] {
      var st1 := PutQuestion(st, qs[0]);
      PutQuestionsGrow(st1, qs[1..]);
      QuestionStep(st, qs[0], origin);
      QuestionsRoundTrip(st1, qs[1..], origin);
    }
  }

  // ------------------------------------------------------------------------------------------
  // Messages

  ghost predicate RecordsOk(records: seq<ResourceRecord>) {
    forall i :: 0 <= i < |records| ==> RecordOk(records[i])
  }

  /** Counts that match the sections, and contents in range. */
  ghost predicate PacketOk(p: Packet) {
    && p.header.questions == |p.questions| && p.header.answers == |p.answers|
    && p.header.nameservers == |p.nameservers| && p.header.additional == |p.additional|
    && (forall i :: 0 <= i < |p.questions| ==> NameOk(p.questions[i].name))
    && RecordsOk(p.answers) && RecordsOk(p.nameservers) && RecordsOk(p.additional)
  }

  function NormalRecords(records: seq<ResourceRecord>): seq<ResourceRecord> {
    if records == [] then [] else [NormalRecord(records[0])] + NormalRecords(records[1..])
  }

  function NormalPacket(p: Packet): Packet {
    Packet(p.header, NormalQuestions(p.questions), NormalRecords(p.answers),
           NormalRecords(p.nameservers), NormalRecords(p.additional))
  }

  lemma {:induction false} KnownOfAllKnown(records: seq<ResourceRecord>)
    ensures KnownRecords(AllKnown(records)) == NormalRecords(records)
  {
    if records != [] {
      KnownOfAllKnown(records[1..]);
      assert AllKnown(records)[1..] == AllKnown(records[1..]);
    }
  }

  lemma RecordsRoundTrip(st: Encoded, records: seq<ResourceRecord>, origin: Bytes)
    requires Sound(st.ctx, st.bytes) && PutItems(st, AllKnown(records)).bytes <= origin
    requires RecordsOk(records)
    ensures var st' := PutItems(st, AllKnown(records));
            && st.bytes <= st'.bytes && |st'.bytes| >= |st.bytes| + 11 * |records|
            && Sound(st'.ctx, st'.bytes)
            && ParseSection(origin[|st.bytes|..], origin, |records|, BeRecord) ==
               Section(origin[|st'.bytes|..], NormalRecords(records))
  {
    SectionRoundTrip(st, AllKnown(records), origin);
    KnownOfAllKnown(records);
  }

  /** Main result on messages: every well-formed message is read back in full, with its names
      in normal form, across four sections that share one compression context. */
  lemma PacketRoundTrip(p: Packet)
    requires PacketOk(p)
    ensures BePacket(PacketBytes(p)) == Ok([], NormalPacket(p))
  {
    hide HeaderBytes, PutQuestions, PutItems, BeHeader, ParseSection, Sound, RecordsOk, NormalQuestions, NormalRecords;
    var m := PacketBytes(p);
    var st0 := Encoded(HeaderBytes(p.header), map[]);
    var st1 := PutQuestions(st0, p.questions);
    var st2 := PutItems(st1, AllKnown(p.answers));
    var st3 := PutItems(st2, AllKnown(p.nameservers));
    var st4 := PutItems(st3, AllKnown(p.additional));
    assert st4.bytes == m;
    PutQuestionsGrow(st0, p.questions);
    PutItemsGrow(st1, AllKnown(p.answers));
    PutItemsGrow(st2, AllKnown(p.nameservers));
    PutItemsGrow(st3, AllKnown(p.additional));
    EmptySound(st0.bytes);
    QuestionsRoundTrip(st0, p.questions, m);
    RecordsRoundTrip(st1, p.answers, m);
    RecordsRoundTrip(st2, p.nameservers, m);
    RecordsRoundTrip(st3, p.additional, m);
    var rest := m[12..];
    assert m == HeaderBytes(p.header) + rest;
    ReadHeader(p.header, rest);
    assert m[|m|..] == [];
  }

  lemma EmptySound(buf: Bytes)
    ensures Sound(map[], buf)
  {
  }

  lemma {:induction false} PutItemsSplit(st: Encoded, a: seq<Item>, b: seq<Item>)
    ensures PutItems(st, a + b) == PutItems(PutItems(st, a), b)
    decreases |a|
  {
    hide PutItem;
    if a == [] {
      assert a + b == b;
    } else {
      assert (a + b)[0] == a[0] && (a + b)[1..] == a[1..] + b;
      PutItemsSplit(PutItem(st, a[0]), a[1..], b);
    }
  }

  /** A message of answers only, whose header counts the first `k` of them. */
  ghost predicate AnswersOnly(p: Packet, k: nat) {
    && p.questions == [] && p.nameservers == [] && p.additional == []
    && p.header.questions == 0 && p.header.nameservers == 0 && p.header.additional == 0
    && p.header.answers == k <= |p.answers|
  }

  lemma AnswersOnlyBytes(p: Packet, k: nat)
    requires AnswersOnly(p, k)
    ensures PacketBytes(p) == PutItems(Encoded(HeaderBytes(p.header), map[]), AllKnown(p.answers)).bytes
  {
    hide PutItem, PutQuestion, HeaderBytes;
    assert AllKnown([]) == [];
  }

  /** Such a message reads as those answers; the bytes of the others are left over. */
  lemma CountedAnswersRead(p: Packet, k: nat)
    requires AnswersOnly(p, k) && RecordsOk(p.answers)
    ensures var r := BePacket(PacketBytes(p));
            && r.Ok? && r.value == Packet(p.header, [], NormalRecords(p.answers[..k]), [], [])
            && (r.rest == [] <==> k == |p.answers|)
  {
    hide HeaderBytes, PutItems, BeHeader, BeRecord, Sound, RecordOk, NormalRecords, PacketBytes, PutItem;
    var m := PacketBytes(p);
    AnswersOnlyBytes(p, k);
    var first, others := p.answers[..k], p.answers[k..];
    var st0 := Encoded(HeaderBytes(p.header), map[]);
    var st1 := PutItems(st0, AllKnown(first));
    assert AllKnown(p.answers) == AllKnown(first) + AllKnown(others);
    PutItemsSplit(st0, AllKnown(first), AllKnown(others));
    PutItemsGrow(st0, AllKnown(first));
    PutItemsGrow(st1, AllKnown(others));
    EmptySound(st0.bytes);
    RecordsRoundTrip(st0, first, m);
    RecordsRoundTrip(st1, others, m);
    var rest := m[12..];
    assert m == HeaderBytes(p.header) + rest;
    ReadHeader(p.header, rest);
    NothingPut(st1);
    assert k == |p.answers| ==> others == [] && AllKnown(others) == [];
  }

  lemma NothingPut(st: Encoded)
    ensures PutItems(st, []) == st
  {
  }

  /** What an E record of any age holds: a modern endpoint, or the addresses of a legacy one. */
  ghost predicate EndpointData(data: Bytes, e: Endpoint) {
    || (exists m :: Decodable(m) && data == EndpointBytes(m) && e == Stripped(m))
    || (|data| in {6, 12, 18, 36} && EndpointProofs.ModernLength(data) != Some(|data|) &&
        e == EndpointProofs.LegacyEndpoint(data))
  }

  lemma EndpointDataReads(data: Bytes, e: Endpoint)
    requires |data| < 0x1_0000 && EndpointData(data, e)
    ensures BeCompat(data, |data|) == Ok([], e)
  {
    hide BeCompat, EndpointBytes, Stripped, Decodable, EndpointProofs.ModernLength, EndpointProofs.LegacyEndpoint;
    if m :| Decodable(m) && data == EndpointBytes(m) && e == Stripped(m) {
      EndpointProofs.CompatReadsModern(m);
    } else {
      EndpointProofs.LegacyIffNotModern(data);
    }
  }

  /** Under each of the four codes, modern or legacy data reads as its endpoint. */
  lemma EveryCodeReads(
    buf: Bytes, name: Name, ctx: Compression, code: u16, cls: Class, unique: bool, ttl: u32,
    data: Bytes, e: Endpoint, after: Bytes, origin: Bytes)
    requires Sound(ctx, buf) && NameOk(name) && buf + EncodeName(|buf|, name, ctx).bytes <= origin
    requires code in {266, 267, 268, 269} && |data| < 0x1_0000 && EndpointData(data, e)
    ensures var n := EncodeName(|buf|, name, ctx).bytes;
            var middle := RecordMiddle(code, ClassCode(cls) + TopBit(unique), ttl);
            BeRecord(n + (middle + (BE(|data|, 2) + (data + after))), origin) ==
            Ok(after, ResourceRecord(Normal(name), TypeE, unique, cls, ttl, E(e)))
  {
    hide BeRecordHead, BE, EncodeName, BeRecord, BeRData, ClassOf, EndpointData, RecordMiddle, Normal;
    hide Sound, NameOk, TypeOf;
    var h := RecordHead(Normal(name), code, ClassCode(cls) + TopBit(unique), ttl, |data|);
    var input := EncodeName(|buf|, name, ctx).bytes +
                 (RecordMiddle(code, ClassCode(cls) + TopBit(unique), ttl) + (BE(|data|, 2) + (data + after)));
    ReadHead(buf, name, ctx, h, data + after, origin);
    EndpointRData(data, e, origin);
    TypeTable(code);
    Codes(TypeE, cls, unique);
    RecordDataExact(input, origin, h, data, after, [], E(e));
  }

  lemma EndpointRData(data: Bytes, e: Endpoint, origin: Bytes)
    requires |data| < 0x1_0000 && EndpointData(data, e)
    ensures BeRData(data, origin, TypeE, |data|) == Ok([], E(e))
  {
    hide BeCompat, EndpointData;
    EndpointDataReads(data, e);
  }

  /** A legacy IPv4 address under the older code 267. */
  lemma OlderCodeExample()
    ensures var m: Bytes := [0, 1, 11, 0, 1, 0, 0, 0, 0, 0, 6, 20, 233, 10, 0, 0, 1];
            BeRecord(m, m) ==
            Ok([], ResourceRecord(ROOT, TypeE, false, IN, 0, E(DirectEndpoint(V4([10, 0, 0, 1], 5353)))))
  {
    hide BeRecord, EndpointData, EncodeName, RecordMiddle, BE, Normal, NameOk, Sound;
    var m: Bytes := [0, 1, 11, 0, 1, 0, 0, 0, 0, 0, 6, 20, 233, 10, 0, 0, 1];
    var data: Bytes, e := [20, 233, 10, 0, 0, 1], DirectEndpoint(V4([10, 0, 0, 1], 5353));
    OlderCodeData(data);
    OlderCodeLayout(m, data);
    EmptySound([]);
    RootBytes();
    assert [] + [0] <= m;
    EveryCodeReads([], ROOT, map[], 267, IN, false, 0, data, e, [], m);
  }

  lemma OlderCodeData(data: Bytes)
    requires data == [20, 233, 10, 0, 0, 1]
    ensures EndpointData(data, DirectEndpoint(V4([10, 0, 0, 1], 5353)))
  {
    hide EndpointProofs.ModernLength, FlagsOf, EndpointProofs.LegacyEndpoint, BeCompat;
    EndpointProofs.LegacyByFirstByte(data);
    EndpointProofs.LegacyIffNotModern(data);
    LegacyAddressExample(data);
  }

  lemma OlderCodeLayout(m: Bytes, data: Bytes)
    requires m == [0, 1, 11, 0, 1, 0, 0, 0, 0, 0, 6] + data && |data| == 6
    ensures m == [0] + (RecordMiddle(267, ClassCode(IN) + TopBit(false), 0) + (BE(|data|, 2) + (data + [])))
  {
    hide BE;
    SmallWords();
    var middle := RecordMiddle(267, ClassCode(IN) + TopBit(false), 0);
    assert middle == [1, 11] + ([0, 1] + [0, 0, 0, 0]) && data + [] == data;
    assert middle == [1, 11, 0, 1, 0, 0, 0, 0];
    assert BE(|data|, 2) + data == [0, 6] + data;
    FourPieces([0], middle, [0, 6], data);
    assert [0] + middle == [0, 1, 11, 0, 1, 0, 0, 0, 0];
    assert [0] + middle + [0, 6] == [0, 1, 11, 0, 1, 0, 0, 0, 0, 0, 6];
  }

  lemma FourPieces(a: Bytes, b: Bytes, c: Bytes, d: Bytes)
    ensures a + (b + (c + d)) == a + b + c + d
  {
  }

  lemma RootBytes()
    ensures EncodeName(0, ROOT, map[]).bytes == [0] && Normal(ROOT) == ROOT && NameOk(ROOT)
  {
    LabelsTrailingDot([]);
    LabelsOfJoin([]);
    assert [] + [DOT] == ROOT;
  }

  lemma LegacyAddressExample(data: Bytes)
    requires data == [20, 233, 10, 0, 0, 1]
    ensures EndpointProofs.LegacyEndpoint(data) == DirectEndpoint(V4([10, 0, 0, 1], 5353))
  {
    assert data[..2] == [20, 233] && data[2..] == [10, 0, 0, 1];
    assert [20, 233][..1] == [20] && [20][..0] == [];
    assert FromBE([20, 233]) == 5353;
    TakeAll([10, 0, 0, 1]);
  }

  // ------------------------------------------------------------------------------------------
  // A record whose signing failed

  /** An endpoint record with the SIGNED flag and no signature, of no legacy length. */
  ghost predicate Unfinished(r: ResourceRecord) {
    && NameOk(r.name) && r.typ == TypeE && r.data.E?
    && var e := r.data.endpoint;
    && BaseAgrees(e) && e.flags.signed && e.signature.None?
    && |EndpointBytes(e)| < 0x1_0000 && |EndpointBytes(e)| !in LEGACY_LENGTHS
  }

  lemma UnfinishedData(r: ResourceRecord, start: nat, ctx: Compression, origin: Bytes)
    requires Unfinished(r)
    ensures var d := ItemData(start, Known(r), ctx).bytes;
            |d| < 0x1_0000 && BeRData(d, origin, TypeE, |d|) == Incomplete
  {
    hide EndpointBytes, BeCompat;
    EndpointProofs.MissingSignatureCompat(r.data.endpoint);
  }

  lemma RecordStops(input: Bytes, origin: Bytes, r: ResourceRecord, data: Bytes, after: Bytes)
    requires |data| < 0x1_0000 && r.typ == TypeE
    requires BeRecordHead(input, origin) == Ok(data + after, ItemHead(Known(r), |data|))
    requires BeRData(data, origin, TypeE, |data|) == Incomplete
    ensures BeRecord(input, origin) == Incomplete
  {
    hide BeRecordHead, BeRData;
    assert (data + after)[..|data|] == data;
  }

  /** Such a record asks for more input wherever it stands. */
  lemma UnfinishedIncomplete(st: Encoded, r: ResourceRecord, origin: Bytes)
    requires Sound(st.ctx, st.bytes) && Unfinished(r) && PutItem(st, Known(r)).bytes <= origin
    ensures BeRecord(origin[|st.bytes|..], origin) == Incomplete
  {
    hide BE, EncodeName, ItemData, BeRecord, BeRecordHead, BeRData, ItemMiddle, Sound, ItemHead, Meaning, RunLength;
    var item := Known(r);
    var st' := PutItem(st, item);
    var name := EncodeName(|st.bytes|, r.name, st.ctx);
    WriteNameSound(st.bytes, r.name, st.ctx);
    var start := |st.bytes| + |name.bytes| + 10;
    var data := ItemData(start, item, name.ctx);
    UnfinishedData(r, start, name.ctx, origin);
    var n := |data.bytes|;
    var after := origin[|st'.bytes|..];
    Layout(st.bytes, name.bytes, ItemMiddle(item), BE(n, 2), data.bytes, origin);
    ReadItemHead(st.bytes, item, st.ctx, n, data.bytes + after, origin);
    RecordStops(origin[|st.bytes|..], origin, r, data.bytes, after);
  }

  /** So a section stops there, and everything behind it is lost. */
  lemma UnfinishedStopsSection(
    st: Encoded, first: seq<Item>, r: ResourceRecord, others: seq<Item>, origin: Bytes, count: nat)
    requires Sound(st.ctx, st.bytes) && Unfinished(r) && count > |first|
    requires forall i :: 0 <= i < |first| ==> ItemOk(first[i])
    requires PutItems(st, first + [Known(r)] + others).bytes <= origin
    ensures st.bytes <= PutItems(st, first).bytes <= origin
    ensures ParseSection(origin[|st.bytes|..], origin, count, BeRecord) ==
            Section(origin[|PutItems(st, first).bytes|..], KnownRecords(first))
  {
    hide PutItem, PutItems, BeRecord, ItemOk, Sound, KnownRecords, Unfinished, ParseSection;
    var st1 := PutItems(st, first);
    PutItemsAround(st, first, Known(r), others);
    PutItemsGrow(st, first);
    SectionStarts(st, first, origin, count, count - |first|);
    UnfinishedIncomplete(st1, r, origin);
    SectionStops(origin[|st1.bytes|..], origin, count - |first|);
    assert KnownRecords(first) + [] == KnownRecords(first);
  }

  lemma PutItemsAround(st: Encoded, first: seq<Item>, item: Item, others: seq<Item>)
    ensures var whole, st1 := PutItems(st, first + [item] + others), PutItems(st, first);
            && whole == PutItems(PutItem(st1, item), others)
            && st1.bytes <= whole.bytes && PutItem(st1, item).bytes <= whole.bytes
  {
    hide PutItem;
    var st1 := PutItems(st, first);
    assert first + [item] + others == first + ([item] + others);
    PutItemsSplit(st, first, [item] + others);
    assert ([item] + others)[1..] == others;
    PutItemsGrow(st1, [item] + others);
    PutItemsGrow(PutItem(st1, item), others);
  }

  lemma SectionStops(input: Bytes, origin: Bytes, count: nat)
    requires BeRecord(input, origin) == Incomplete
    ensures ParseSection(input, origin, count, BeRecord) == Section(input, [])
  {
    hide BeRecord;
  }

  lemma PutItemLonger(st: Encoded, item: Item)
    ensures |PutItem(st, item).bytes| >= |st.bytes| + 11
  {
    hide EncodeName, ItemData;
  }

  lemma {:induction false} PutItemsLonger(st: Encoded, items: seq<Item>)
    ensures |PutItems(st, items).bytes| >= |st.bytes| + 11 * |items|
    decreases |items|
  {
    hide PutItem;
    if items != [] {
      PutItemLonger(st, items[0]);
      PutItemsLonger(PutItem(st, items[0]), items[1..]);
    }
  }

  /** A message with such an answer reads as the answers before it, with bytes left over. */
  lemma UnfinishedCutsMessage(p: Packet, k: nat)
    requires AnswersOnly(p, |p.answers|) && k < |p.answers|
    requires RecordsOk(p.answers[..k]) && Unfinished(p.answers[k])
    ensures var r := BePacket(PacketBytes(p));
            && r.Ok? && r.rest != []
            && r.value == Packet(p.header, [], NormalRecords(p.answers[..k]), [], [])
  {
    hide HeaderBytes, PutItems, BeHeader, BeRecord, Sound, RecordOk, NormalRecords, PacketBytes, PutItem, Unfinished;
    var m := PacketBytes(p);
    AnswersOnlyBytes(p, |p.answers|);
    var first, bad, others := p.answers[..k], p.answers[k], p.answers[k + 1..];
    var st0 := Encoded(HeaderBytes(p.header), map[]);
    var st1 := PutItems(st0, AllKnown(first));
    assert AllKnown(p.answers) == AllKnown(first) + [Known(bad)] + AllKnown(others);
    EmptySound(st0.bytes);
    UnfinishedStopsSection(st0, AllKnown(first), bad, AllKnown(others), m, |p.answers|);
    KnownOfAllKnown(first);
    PutItemsLonger(st0, AllKnown(p.answers));
    assert |m| > |st1.bytes| by {
      PutItemsAround(st0, AllKnown(first), Known(bad), AllKnown(others));
      PutItemsLonger(PutItem(st1, Known(bad)), AllKnown(others));
      PutItemLonger(st1, Known(bad));
    }
    var rest := m[12..];
    PutItemsGrow(st0, AllKnown(p.answers));
    assert m == HeaderBytes(p.header) + rest;
    ReadHeader(p.header, rest);
  }

  // ------------------------------------------------------------------------------------------
  // What the parsers consume

  lemma QuestionConsumes(input: Bytes, origin: Bytes)
    ensures BeQuestion(input, origin).Ok? ==> |BeQuestion(input, origin).rest| + 5 <= |input|
  {
    ParseConsumes(input, origin, []);
  }

  lemma HeadConsumes(input: Bytes, origin: Bytes)
    ensures BeRecordHead(input, origin).Ok? ==> |BeRecordHead(input, origin).rest| + 11 <= |input|
  {
    ParseConsumes(input, origin, []);
  }

  lemma RecordConsumes(input: Bytes, origin: Bytes)
    ensures BeRecord(input, origin).Ok? ==> |BeRecord(input, origin).rest| + 11 <= |input|
  {
    hide BeRecordHead, BeRData;
    HeadConsumes(input, origin);
  }

  /** Every one of `count` records parses, with no recovery. */
  predicate AllParse<T>(input: Bytes, original: Bytes, count: nat, parser: (Bytes, Bytes) -> Parsed<T>)
    decreases count
  {
    count == 0 ||
    (parser(input, original).Ok? && AllParse(parser(input, original).rest, original, count - 1, parser))
  }

  lemma {:induction false} SectionConsumes<T>(
    input: Bytes, original: Bytes, count: nat, parser: (Bytes, Bytes) -> Parsed<T>, least: nat)
    requires AllParse(input, original, count, parser)
    requires forall i, o :: parser(i, o).Ok? ==> |parser(i, o).rest| + least <= |i|
    ensures |ParseSection(input, original, count, parser).rest| + count * least <= |input|
    decreases count
  {
    if count > 0 {
      SectionConsumes(parser(input, original).rest, original, count - 1, parser, least);
      assert count * least == (count - 1) * least + least;
    }
  }

  /** Counts that cannot fit the message, at 5 bytes a question and 11 a record, reject it before
      anything is parsed, and nothing else does. */
  lemma CountsReject(input: Bytes)
    ensures BePacket(input).Ok? <==>
            && |input| >= 12
            && var h := BeHeader(input).value;
               5 * h.questions + 11 * (h.answers + h.nameservers + h.additional) + 12 <= |input|
    ensures |input| >= 12 && !BePacket(input).Ok? ==> BePacket(input) == Failure(input[12..])
    ensures |input| < 12 ==> BePacket(input) == Incomplete
  {
    hide ParseSection, FromBE;
    HeaderTaken(input);
  }

  lemma HeaderTaken(input: Bytes)
    ensures |input| >= 12 ==> BeHeader(input).Ok? && BeHeader(input).rest == input[12..]
    ensures |input| < 12 ==> BeHeader(input) == Incomplete
  {
    hide FromBE;
    if |input| >= 12 {
      assert input[2..][2..] == input[4..] && input[4..][2..] == input[6..] && input[6..][2..] == input[8..];
      assert input[8..][2..] == input[10..] && input[10..][2..] == input[12..];
    }
  }

  /** Data that is not used up makes a record an error that points behind it; data that is cut
      short asks for more input, in the record and in its data alike. */
  lemma RecordDataExact(
    input: Bytes, origin: Bytes, h: RecordHead, data: Bytes, after: Bytes, left: Bytes, value: RData)
    requires BeRecordHead(input, origin) == Ok(data + after, h) && h.rdlen == |data| && TypeOf(h.typ).Some?
    requires BeRData(data, origin, TypeOf(h.typ).value, h.rdlen) == Ok(left, value)
    ensures left != [] ==> BeRecord(input, origin) == Error(after)
    ensures left == [] && ClassOf(h.cls % 0x8000).Some? ==>
              BeRecord(input, origin) ==
              Ok(after, ResourceRecord(h.name, TypeOf(h.typ).value, h.cls >= 0x8000, ClassOf(h.cls % 0x8000).value,
                                       h.ttl, value))
  {
    hide BeRecordHead, BeRData, TypeOf, ClassOf;
    assert (data + after)[..|data|] == data && (data + after)[|data|..] == after;
  }

  lemma RecordCutShort(input: Bytes, origin: Bytes, h: RecordHead, rest: Bytes)
    requires BeRecordHead(input, origin) == Ok(rest, h) && |rest| < h.rdlen
    ensures BeRecord(input, origin) == Incomplete
  {
    hide BeRecordHead, BeRData, TypeOf, ClassOf;
  }

  /** An address record with five bytes of data is an error, and goes on behind them. */
  lemma LeftoverExample()
    ensures var m: Bytes := [0, 0, 1, 0, 1, 0, 0, 0, 0, 0, 5, 127, 0, 0, 1, 9, 77];
            BeRecord(m, m) == Error([77])
  {
    hide BeRecord, BeRecordHead, BeName, BeU16, BeU32, BE;
    var m: Bytes := [0, 0, 1, 0, 1, 0, 0, 0, 0, 0, 5, 127, 0, 0, 1, 9, 77];
    var data: Bytes := [127, 0, 0, 1, 9];
    var r4: Bytes := BE(5, 2) + (data + [77]);
    var r3: Bytes := BE(0, 4) + r4;
    var r2: Bytes := BE(1, 2) + r3;
    SmallWords();
    FiveWord();
    assert m == [0] + (BE(1, 2) + r2);
    RootName(BE(1, 2) + r2, m);
    HeadFromParts(m, m, RecordHead(ROOT, 1, 1, 0, 5), data + [77]);
    assert data[..4] == [127, 0, 0, 1] && data[4..] == [9];
    RecordDataExact(m, m, RecordHead(ROOT, 1, 1, 0, 5), data, [77], [9], A([127, 0, 0, 1]));
  }

  lemma FiveWord()
    ensures BE(5, 2) == [0, 5]
  {
    assert BE(0, 0) == [] && BE(0, 1) == [0];
  }

  /** The fixed fields behind an owner name. */
  lemma HeadFromParts(input: Bytes, origin: Bytes, h: RecordHead, rest: Bytes)
    requires BeName(input, origin) ==
             Ok(BE(h.typ, 2) + (BE(h.cls, 2) + (BE(h.ttl, 4) + (BE(h.rdlen, 2) + rest))), h.name)
    ensures BeRecordHead(input, origin) == Ok(rest, h)
  {
    hide BeName, BeU16, BeU32, BE;
    var r4 := BE(h.rdlen, 2) + rest;
    var r3 := BE(h.ttl, 4) + r4;
    var r2 := BE(h.cls, 2) + r3;
    ReadU16(h.typ, r2);
    ReadU16(h.cls, r3);
    ReadU32(h.ttl, r4);
    ReadU16(h.rdlen, rest);
  }

  /** A section goes on behind a recoverable error, and stops at any other. */
  lemma SectionRecovers<T>(input: Bytes, origin: Bytes, count: nat, parser: (Bytes, Bytes) -> Parsed<T>)
    requires count > 0
    ensures var r, s := parser(input, origin), ParseSection(input, origin, count, parser);
            && (r.Error? ==> s == ParseSection(r.at, origin, count - 1, parser))
            && (r.Incomplete? || r.Failure? ==> s == Section(input, []))
  {
  }

  /** The count check never rejects a message whose sections all parse. */
  lemma CountsNeverReject(input: Bytes)
    requires BeHeader(input).Ok?
    requires var h := BeHeader(input).value;
             var q := ParseSection(BeHeader(input).rest, input, h.questions, BeQuestion);
             var a := ParseSection(q.rest, input, h.answers, BeRecord);
             var n := ParseSection(a.rest, input, h.nameservers, BeRecord);
             && AllParse(BeHeader(input).rest, input, h.questions, BeQuestion)
             && AllParse(q.rest, input, h.answers, BeRecord)
             && AllParse(a.rest, input, h.nameservers, BeRecord)
             && AllParse(n.rest, input, h.additional, BeRecord)
    ensures ValidateSectionCounts(BeHeader(input).rest, BeHeader(input).value).Ok?
    ensures BePacket(input).Ok?
  {
    hide BeHeader, BeQuestion, BeRecord, ParseSection, AllParse;
    var h := BeHeader(input).value;
    var q := ParseSection(BeHeader(input).rest, input, h.questions, BeQuestion);
    var a := ParseSection(q.rest, input, h.answers, BeRecord);
    var n := ParseSection(a.rest, input, h.nameservers, BeRecord);
    forall i: Bytes, o: Bytes
      ensures BeQuestion(i, o).Ok? ==> |BeQuestion(i, o).rest| + 5 <= |i|
    {
      QuestionConsumes(i, o);
    }
    forall i: Bytes, o: Bytes
      ensures BeRecord(i, o).Ok? ==> |BeRecord(i, o).rest| + 11 <= |i|
    {
      RecordConsumes(i, o);
    }
    SectionConsumes(BeHeader(input).rest, input, h.questions, BeQuestion, 5);
    SectionConsumes(q.rest, input, h.answers, BeRecord, 11);
    SectionConsumes(a.rest, input, h.nameservers, BeRecord, 11);
    SectionConsumes(n.rest, input, h.additional, BeRecord, 11);
  }

  /** A text record of class 9 with one byte of data: the second of the two bytes behind it is
      taken for the start of the next record. */
  lemma UnknownClassExample()
    ensures var m: Bytes := [0, 0, 16, 0, 9, 0, 0, 0, 0, 0, 1, 65, 7, 7];
            BeRecord(m, m) == Error([7])
  {
    hide BeRecord, BeRecordHead, BeRData;
    var m: Bytes := [0, 0, 16, 0, 9, 0, 0, 0, 0, 0, 1, 65, 7, 7];
    UnknownClassHead(m);
    TextData([65], m);
    UnknownClassSkipsTwice(m, m, RecordHead(ROOT, 16, 9, 0, 1), [65], [7, 7], Txt([65]));
  }

  lemma TextData(text: Bytes, origin: Bytes)
    requires |text| < 0x1_0000
    ensures BeRData(text, origin, TypeTxt, |text|) == Ok([], Txt(text))
  {
    TakeAll(text);
  }

  lemma UnknownClassHead(m: Bytes)
    requires m == [0, 0, 16, 0, 9, 0, 0, 0, 0, 0, 1, 65, 7, 7]
    ensures BeRecordHead(m, m) == Ok([65] + [7, 7], RecordHead(ROOT, 16, 9, 0, 1))
  {
    hide BeU16, BeU32, BE, BeName;
    var r5: Bytes := [65] + [7, 7];
    var r4: Bytes := BE(1, 2) + r5;
    var r3: Bytes := BE(0, 4) + r4;
    var r2: Bytes := BE(9, 2) + r3;
    var r1: Bytes := BE(16, 2) + r2;
    SmallWords();
    assert m == [0] + r1;
    RootName(r1, m);
    ReadU16(16, r2);
    ReadU16(9, r3);
    ReadU32(0, r4);
    ReadU16(1, r5);
  }

  lemma RootName(rest: Bytes, origin: Bytes)
    ensures BeName([0] + rest, origin) == Ok(rest, ROOT)
  {
    assert ([0] + rest)[1..] == rest;
  }

  lemma SmallWords()
    ensures BE(1, 2) == [0, 1] && BE(6, 2) == [0, 6] && BE(9, 2) == [0, 9] && BE(16, 2) == [0, 16]
    ensures BE(267, 2) == [1, 11] && BE(0, 4) == [0, 0, 0, 0]
  {
    assert BE(1, 1) == [1];
    assert BE(0, 0) == [] && BE(0, 1) == [0] && BE(0, 2) == [0, 0] && BE(0, 3) == [0, 0, 0];
  }

  /** A record of known type and unknown class is not skipped but skipped twice: the section
      stays in step exactly when its RDLENGTH is zero. */
  lemma UnknownClassSkipsTwice(input: Bytes, origin: Bytes, h: RecordHead, data: Bytes, after: Bytes, value: RData)
    requires BeRecordHead(input, origin) == Ok(data + after, h) && h.rdlen == |data|
    requires TypeOf(h.typ).Some? && ClassOf(h.cls % 0x8000).None?
    requires BeRData(data, origin, TypeOf(h.typ).value, h.rdlen) == Ok([], value)
    ensures BeRecord(input, origin) == if |after| < |data| then Incomplete else Error(after[|data|..])
    ensures BeRecord(input, origin) == Error(after) <==> |data| == 0
  {
    hide BeRecordHead, BeRData, TypeOf, ClassOf;
    var remain := data + after;
    assert remain[..|data|] == data && remain[|data|..] == after;
  }
}
