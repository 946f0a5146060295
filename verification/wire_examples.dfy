/** Bytes on the wire, written out: where each field stands. */
module WireExamples {
  import opened Bytes
  import opened Names
  import opened NameCodec
  import opened Endpoint
  import opened Packet
  import opened MultiResponse
  import VarInt

  const EXAMPLE_COM: Name := [101, 120, 97, 109, 112, 108, 101, 46, 99, 111, 109]
  const COM: Name := [99, 111, 109]

  /** A new name of two labels is written out, and both its suffixes are remembered. */
  lemma TwoLabelsWritten(start: nat, name: Name, a: Label, b: Label)
    requires name == a + [DOT] + b && |a| <= 63 && |b| <= 63 && start + 1 + |a| <= 0x3FFF
    ensures var e := EncodeName(start, name, map[]);
            && e.bytes == [|a|] + a + ([|b|] + b + [0])
            && e.ctx == map[name := start, b := start + 1 + |a|]
  {
    hide Labels, BE;
    TwoLabels(name, a, b);
    var ctx1: Compression := map[name := start];
    var ctx2: Compression := map[name := start, b := start + 1 + |a|];
    assert [b][1..] == [] && [a, b][1..] == [b];
    assert |name| != |b| && b !in ctx1 && ctx1[b := start + 1 + |a|] == ctx2;
    var end := start + 1 + |a|;
    assert EncodeLabels(end + 1 + |b|, [], ctx2) == Encoded([0], ctx2);
    assert EncodeLabels(end, [b], ctx1) == Encoded([|b|] + b + [0], ctx2);
  }

  lemma TwoLabels(name: Name, a: Label, b: Label)
    requires name == a + [DOT] + b
    ensures Labels(name) == [a, b] && Join([a, b]) == name && Join([b]) == b
  {
    hide Labels;
    assert [a, b][1..] == [b];
    LabelsOfJoin([a, b]);
  }

  /** A name that is remembered is a pointer to where it stands. */
  lemma RememberedPointed(start: nat, name: Name, a: Label, b: Label, ctx: Compression)
    requires name == a + [DOT] + b && name in ctx && ctx[name] <= 0x3FFF
    ensures EncodeName(start, name, ctx).bytes == BE(0xC000 + ctx[name], 2)
  {
    hide Labels, BE;
    TwoLabels(name, a, b);
  }

  lemma NameWritten()
    ensures var e := EncodeName(12, EXAMPLE_COM, map[]);
            && e.bytes == [7, 101, 120, 97, 109, 112, 108, 101, 3, 99, 111, 109, 0]
            && e.ctx == map[EXAMPLE_COM := 12, COM := 20]
  {
    hide EncodeName;
    TwoLabelsWritten(12, EXAMPLE_COM, [101, 120, 97, 109, 112, 108, 101], COM);
  }

  lemma NamePointed(start: nat)
    ensures EncodeName(start, EXAMPLE_COM, map[EXAMPLE_COM := 12, COM := 20]).bytes == [0xC0, 12]
  {
    hide EncodeName;
    RememberedPointed(start, EXAMPLE_COM, [101, 120, 97, 109, 112, 108, 101], COM, map[EXAMPLE_COM := 12, COM := 20]);
    Words();
  }

  lemma Words()
    ensures BE(0xC00C, 2) == [0xC0, 12] && BE(1, 2) == [0, 1] && BE(4, 2) == [0, 4] && BE(0, 2) == [0, 0]
    ensures BE(1573, 2) == [6, 37] && BE(0x8180, 2) == [0x81, 0x80] && BE(1272, 4) == [0, 0, 4, 248]
  {
    assert BE(0, 0) == [] && BE(0, 1) == [0] && BE(0, 2) == [0, 0] && BE(0, 3) == [0, 0, 0];
    assert BE(0xC0, 1) == [0xC0] && BE(6, 1) == [6] && BE(0x81, 1) == [0x81];
    assert BE(4, 3) == BE(0, 2) + [4];
  }

  const QUESTION := Question(EXAMPLE_COM, false, QueryA, QueryIN)
  const ANSWER := ResourceRecord(EXAMPLE_COM, TypeA, false, IN, 1272, A([93, 184, 216, 34]))
  const RESPONSE := Packet(Header(1573, 0x8180, 1, 1, 0, 0), [QUESTION], [ANSWER], [], [])

  const HEADER: Bytes := [6, 37, 0x81, 0x80, 0, 1, 0, 1, 0, 0, 0, 0]
  const ASKED: Bytes := [7, 101, 120, 97, 109, 112, 108, 101, 3, 99, 111, 109, 0, 0, 1, 0, 1]
  const ANSWERED: Bytes := [0xC0, 12, 0, 1, 0, 1, 0, 0, 4, 248, 0, 4, 93, 184, 216, 34]

  lemma HeaderExample()
    ensures HeaderBytes(RESPONSE.header) == HEADER
  {
    hide BE;
    Words();
    assert HEADER == [6, 37] + ([0x81, 0x80] + ([0, 1] + ([0, 1] + ([0, 0] + [0, 0]))));
  }

  lemma QuestionExample(st: Encoded)
    requires |st.bytes| == 12 && st.ctx == map[]
    ensures PutQuestion(st, QUESTION) == Encoded(st.bytes + ASKED, map[EXAMPLE_COM := 12, COM := 20])
  {
    hide BE, EncodeName;
    Words();
    NameWritten();
    assert QuestionTail(QUESTION) == [0, 1] + [0, 1];
    var name: Bytes := [7, 101, 120, 97, 109, 112, 108, 101, 3, 99, 111, 109, 0];
    assert name + ([0, 1] + [0, 1]) == ASKED;
    assert st.bytes + name + ([0, 1] + [0, 1]) == st.bytes + (name + ([0, 1] + [0, 1]));
  }

  lemma AnswerExample(st: Encoded)
    requires st.ctx == map[EXAMPLE_COM := 12, COM := 20]
    ensures PutItem(st, Known(ANSWER)).bytes == st.bytes + ANSWERED
  {
    hide BE, EncodeName, RecordMiddle;
    Words();
    NamePointed(|st.bytes|);
    MiddleExample();
    var ip: Bytes := [93, 184, 216, 34];
    var middle: Bytes := [0, 1, 0, 1, 0, 0, 4, 248];
    assert ANSWERED == [0xC0, 12] + middle + [0, 4] + ip;
    assert st.bytes + [0xC0, 12] + middle + [0, 4] + ip == st.bytes + ([0xC0, 12] + middle + [0, 4] + ip);
  }

  lemma MiddleExample()
    ensures RecordMiddle(1, 1, 1272) == [0, 1, 0, 1, 0, 0, 4, 248]
  {
    hide BE;
    Words();
    assert [0, 1] + ([0, 1] + [0, 0, 4, 248]) == [0, 1, 0, 1, 0, 0, 4, 248];
  }

  /** A response with one question and one answer. */
  lemma ResponseExample()
    ensures PacketBytes(RESPONSE) == HEADER + ASKED + ANSWERED
  {
    hide HeaderBytes, PutQuestion, PutItem;
    HeaderExample();
    var st0 := Encoded(HEADER, map[]);
    QuestionExample(st0);
    var st1 := PutQuestion(st0, QUESTION);
    AnswerExample(st1);
    Singletons(st0, st1, QUESTION, ANSWER);
  }

  lemma Singletons(st0: Encoded, st1: Encoded, q: Question, r: ResourceRecord)
    ensures PutQuestions(st0, [q]) == PutQuestion(st0, q)
    ensures PutItems(st1, AllKnown([r])) == PutItem(st1, Known(r))
    ensures forall st :: PutItems(st, AllKnown([])) == st
  {
    hide PutQuestion, PutItem;
    assert [q][1..] == [];
    assert AllKnown([r]) == [Known(r)] && [Known(r)][1..] == [];
    assert AllKnown([]) == [];
  }

  /** A service record: priority, weight and port stand before the target. */
  lemma ServiceExample(start: nat, ctx: Compression)
    ensures RDataBytes(start, Srv(1, 4, 1573, ROOT), ctx).bytes == [0, 1, 0, 4, 6, 37, 0]
  {
    hide BE;
    Words();
    assert Labels(ROOT) == [] by {
      LabelsTrailingDot([]);
      LabelsOfJoin([]);
      assert [] + [DOT] == ROOT;
    }
    assert [0, 1] + ([0, 4] + ([6, 37] + [0])) == [0, 1, 0, 4, 6, 37, 0];
  }

  const FULL := Endpoint(
    Flags(false, true, true, true, true, false, false, true), Some(300), Some(0x3F80_0000),
    Some(Signature(0x0807, [170, 187])), V4([10, 0, 0, 1], 1000), Some(V4([10, 0, 0, 2], 2000)))

  /** An E record with everything in it: flags, sequence, outer address, agent address, load,
      scheme, length and signature. */
  lemma EndpointExample()
    ensures EndpointBytes(FULL) ==
            [0x79] + [0x41, 0x2C] + [3, 232, 10, 0, 0, 1] + [7, 208, 10, 0, 0, 2] + [0x3F, 0x80, 0, 0] +
            [8, 7] + [2] + [170, 187]
  {
    hide BE, FlagsByte, VarInt.Encode;
    EndpointWords();
    assert AddressBytes(V4([10, 0, 0, 1], 1000)) == [3, 232, 10, 0, 0, 1];
    assert AddressBytes(V4([10, 0, 0, 2], 2000)) == [7, 208, 10, 0, 0, 2];
    assert BaseBytes(FULL) ==
           [0x79] + ([0x41, 0x2C] + ([3, 232, 10, 0, 0, 1] + [7, 208, 10, 0, 0, 2] + [0x3F, 0x80, 0, 0]));
    assert SignatureBytes(Signature(0x0807, [170, 187])) == [8, 7] + ([2] + [170, 187]);
  }

  lemma EndpointWords()
    ensures FlagsByte(FULL.flags) == 0x79
    ensures VarInt.Encode(300) == [0x41, 0x2C] && VarInt.Encode(2) == [2]
    ensures BE(1000, 2) == [3, 232] && BE(2000, 2) == [7, 208] && BE(0x0807, 2) == [8, 7]
    ensures BE(0x3F80_0000, 4) == [0x3F, 0x80, 0, 0]
  {
    assert BE(0, 0) == [] && BE(2, 1) == [2] && BE(3, 1) == [3] && BE(7, 1) == [7] && BE(8, 1) == [8];
    assert BE(0x41, 1) == [0x41] && BE(0x3F, 1) == [0x3F];
    assert BE(0x3F80, 2) == [0x3F, 0x80] && BE(0x3F_8000, 3) == [0x3F, 0x80, 0];
  }

  /** A response body: the count, then digest, signature input, signature, message, certificate. */
  lemma ResponseBodyExample()
    ensures ResponseBytes([ResponseRecord(SignatureFields([11], [22], [33]), [44], [55])]) ==
            [0, 0, 0, 1] + ([0, 0, 0, 1, 11] + ([0, 0, 0, 1, 22] + ([0, 0, 0, 1, 33] +
            ([0, 0, 0, 1, 44] + [0, 0, 0, 1, 55]))))
  {
    hide BE;
    CountWord();
    var r := ResponseRecord(SignatureFields([11], [22], [33]), [44], [55]);
    assert [r][1..] == [] && RecordsBytes([]) == [];
    assert RecordsBytes([r]) == RecordBytes(r) + [];
    assert FieldBytes([11]) == [0, 0, 0, 1, 11] && FieldBytes([22]) == [0, 0, 0, 1, 22];
    assert FieldBytes([33]) == [0, 0, 0, 1, 33] && FieldBytes([44]) == [0, 0, 0, 1, 44];
    assert FieldBytes([55]) == [0, 0, 0, 1, 55];
  }

  lemma CountWord()
    ensures BE(1, 4) == [0, 0, 0, 1]
  {
    assert BE(0, 0) == [] && BE(0, 1) == [0] && BE(0, 2) == [0, 0] && BE(0, 3) == [0, 0, 0];
  }
}
