/** The multi-record response body: a count, then five length-prefixed fields per record. */
module MultiResponse {
  import opened Bytes

  datatype SignatureFields = SignatureFields(contentDigest: Bytes, signatureInput: Bytes, signature: Bytes)

  datatype ResponseRecord = ResponseRecord(signatureFields: SignatureFields, dns: Bytes, cert: Bytes)

  const FIELD_LIMIT := 0x1_0000_0000

  function FieldBytes(value: Bytes): Bytes {
    BE(|value| % FIELD_LIMIT, 4) + value
  }

  function RecordBytes(r: ResponseRecord): Bytes {
    FieldBytes(r.signatureFields.contentDigest) + (FieldBytes(r.signatureFields.signatureInput) +
    (FieldBytes(r.signatureFields.signature) + (FieldBytes(r.dns) + FieldBytes(r.cert))))
  }

  function RecordsBytes(rs: seq<ResponseRecord>): Bytes {
    if rs == [] then [] else RecordBytes(rs[0]) + RecordsBytes(rs[1..])
  }

  function ResponseBytes(rs: seq<ResponseRecord>): Bytes {
    BE(|rs| % FIELD_LIMIT, 4) + RecordsBytes(rs)
  }

  function RecordSize(r: ResponseRecord): nat {
    4 + |r.signatureFields.contentDigest| + 4 + |r.signatureFields.signatureInput| +
    4 + |r.signatureFields.signature| + 4 + |r.dns| + 4 + |r.cert|
  }

  function SumOfSizes(rs: seq<ResponseRecord>): nat {
    if rs == [] then 0 else RecordSize(rs[0]) + SumOfSizes(rs[1..])
  }

  function EncodingSize(rs: seq<ResponseRecord>): nat {
    4 + SumOfSizes(rs)
  }

  function BeField(input: Bytes): Parsed<Bytes> {
    var (rest, len) :- BeU32(input);
    Take(rest, len)
  }

  function BeResponseRecord(input: Bytes): Parsed<ResponseRecord> {
    var (rest, contentDigest) :- BeField(input);
    var (rest, signatureInput) :- BeField(rest);
    var (rest, signature) :- BeField(rest);
    var (rest, dns) :- BeField(rest);
    var (rest, cert) :- BeField(rest);
    Ok(rest, ResponseRecord(SignatureFields(contentDigest, signatureInput, signature), dns, cert))
  }

  function BeResponseRecords(input: Bytes, count: nat): Parsed<seq<ResponseRecord>>
    decreases count
  {
    if count == 0 then Ok(input, []) else
    var (rest, r) :- BeResponseRecord(input);
    var (rest, rs) :- BeResponseRecords(rest, count - 1);
    Ok(rest, [r] + rs)
  }

  function BeMultiResponse(input: Bytes): Parsed<seq<ResponseRecord>> {
    var (rest, count) :- BeU32(input);
    BeResponseRecords(rest, count)
  }

  // ------------------------------------------------------------------------------------------
  // The loops of the program

  method PutResponseRecord(buf: Bytes, r: ResponseRecord) returns (buf': Bytes)
    ensures buf' == buf + RecordBytes(r)
  {
    hide FieldBytes;
    buf' := buf + FieldBytes(r.signatureFields.contentDigest);
    buf' := buf' + FieldBytes(r.signatureFields.signatureInput);
    buf' := buf' + FieldBytes(r.signatureFields.signature);
    buf' := buf' + FieldBytes(r.dns);
    buf' := buf' + FieldBytes(r.cert);
  }

  method Encode(rs: seq<ResponseRecord>) returns (buf: Bytes)
    ensures buf == ResponseBytes(rs)
  {
    buf := BE(|rs| % FIELD_LIMIT, 4);
    for i := 0 to |rs|
      invariant buf + RecordsBytes(rs[i..]) == ResponseBytes(rs)
    {
      assert rs[i..][1..] == rs[i + 1..];
      RecordsStep(buf, rs[i..]);
      buf := PutResponseRecord(buf, rs[i]);
    }
    assert buf + [] == buf;
  }

  lemma RecordsStep(buf: Bytes, rs: seq<ResponseRecord>)
    requires rs != []
    ensures buf + RecordsBytes(rs) == buf + RecordBytes(rs[0]) + RecordsBytes(rs[1..])
  {
  }

  /** The streaming encoder: the count is written last, over a placeholder. */
  method EncodeRecords(rs: seq<ResponseRecord>) returns (buf: Bytes)
    requires |rs| < FIELD_LIMIT
    ensures buf == ResponseBytes(rs)
  {
    hide BE, RecordBytes;
    buf := BE(0, 4);
    assert buf[4..] == [] && rs[0..] == rs;
    var count := 0;
    for i := 0 to |rs|
      invariant count == i
      invariant |buf| >= 4 && buf[4..] + RecordsBytes(rs[i..]) == RecordsBytes(rs)
    {
      count := count + 1;
      assert rs[i..][1..] == rs[i + 1..];
      RecordsStep(buf[4..], rs[i..]);
      var grown := PutResponseRecord(buf, rs[i]);
      assert grown[4..] == buf[4..] + RecordBytes(rs[i]);
      buf := grown;
    }
    assert buf[4..] + [] == buf[4..];
    buf := BE(count, 4) + buf[4..];
  }

  method DecodeLoop(input: Bytes) returns (r: Parsed<seq<ResponseRecord>>)
    ensures r == BeMultiResponse(input)
  {
    hide BeU32, BeResponseRecord;
    var head := BeU32(input);
    if !head.Ok? {
      return head.PropagateFailure();
    }
    var rest, count := head.rest, head.value;
    var records: seq<ResponseRecord> := [];
    ghost var all := BeResponseRecords(rest, count);
    assert all.Ok? ==> [] + all.value == all.value;
    for i := 0 to count
      invariant var now := BeResponseRecords(rest, count - i);
                BeMultiResponse(input) == if now.Ok? then Ok(now.rest, records + now.value) else now
    {
      ghost var now := BeResponseRecords(rest, count - i);
      var one := BeResponseRecord(rest);
      if !one.Ok? {
        return one.PropagateFailure();
      }
      ghost var later := BeResponseRecords(one.rest, count - i - 1);
      assert later.Ok? ==> records + ([one.value] + later.value) == records + [one.value] + later.value;
      records := records + [one.value];
      rest := one.rest;
    }
    assert records + [] == records;
    return Ok(rest, records);
  }

  // ------------------------------------------------------------------------------------------
  // Properties

  predicate FieldOk(b: Bytes) {
    |b| < FIELD_LIMIT
  }

  predicate RecordOk(r: ResponseRecord) {
    && FieldOk(r.signatureFields.contentDigest) && FieldOk(r.signatureFields.signatureInput)
    && FieldOk(r.signatureFields.signature) && FieldOk(r.dns) && FieldOk(r.cert)
  }

  ghost predicate ResponseOk(rs: seq<ResponseRecord>) {
    |rs| < FIELD_LIMIT && forall i :: 0 <= i < |rs| ==> RecordOk(rs[i])
  }

  lemma ReadField(value: Bytes, rest: Bytes)
    requires FieldOk(value)
    ensures BeField(FieldBytes(value) + rest) == Ok(rest, value)
  {
    hide BE;
    assert FieldBytes(value) + rest == BE(|value|, 4) + (value + rest);
    ReadU32(|value|, value + rest);
    TakePrefix(value, rest);
  }

  lemma ReadRecord(r: ResponseRecord, rest: Bytes)
    requires RecordOk(r)
    ensures BeResponseRecord(RecordBytes(r) + rest) == Ok(rest, r)
  {
    hide FieldBytes, BeField;
    var f := r.signatureFields;
    var r4 := FieldBytes(r.cert) + rest;
    var r3 := FieldBytes(r.dns) + r4;
    var r2 := FieldBytes(f.signature) + r3;
    var r1 := FieldBytes(f.signatureInput) + r2;
    assert RecordBytes(r) + rest == FieldBytes(f.contentDigest) + r1;
    ReadField(f.contentDigest, r1);
    ReadField(f.signatureInput, r2);
    ReadField(f.signature, r3);
    ReadField(r.dns, r4);
    ReadField(r.cert, rest);
  }

  lemma {:induction false} ReadRecords(rs: seq<ResponseRecord>, rest: Bytes)
    requires forall i :: 0 <= i < |rs| ==> RecordOk(rs[i])
    ensures BeResponseRecords(RecordsBytes(rs) + rest, |rs|) == Ok(rest, rs)
  {
    hide BeResponseRecord, RecordBytes;
    if rs == [] {
      assert [] + rest == rest;
    } else {
      var tail := RecordsBytes(rs[1..]) + rest;
      assert RecordsBytes(rs) + rest == RecordBytes(rs[0]) + tail;
      ReadRecord(rs[0], tail);
      ReadRecords(rs[1..], rest);
      assert [rs[0]] + rs[1..] == rs;
    }
  }

  /** Decoding inverts encoding and leaves whatever follows untouched. */
  lemma RoundTrip(rs: seq<ResponseRecord>, trailing: Bytes)
    requires ResponseOk(rs)
    ensures BeMultiResponse(ResponseBytes(rs) + trailing) == Ok(trailing, rs)
  {
    hide BE, RecordsBytes;
    assert ResponseBytes(rs) + trailing == BE(|rs|, 4) + (RecordsBytes(rs) + trailing);
    ReadU32(|rs|, RecordsBytes(rs) + trailing);
    ReadRecords(rs, trailing);
  }

  lemma {:induction false} SumIsLength(rs: seq<ResponseRecord>)
    ensures SumOfSizes(rs) == |RecordsBytes(rs)|
  {
    if rs != [] {
      SumIsLength(rs[1..]);
    }
  }

  lemma SizeIsLength(rs: seq<ResponseRecord>)
    ensures EncodingSize(rs) == |ResponseBytes(rs)|
  {
    SumIsLength(rs);
  }

  lemma FieldGrows(input: Bytes, more: Bytes)
    ensures BeField(input).Ok? ==> BeField(input + more) == Ok(BeField(input).rest + more, BeField(input).value)
    ensures !BeField(input).Ok? ==> BeField(input) == Incomplete
  {
    if BeField(input).Ok? {
      var rest := input[4..];
      assert (input + more)[..4] == input[..4] && (input + more)[4..] == rest + more;
      var n := BeU32(input).value;
      assert (rest + more)[..n] == rest[..n] && (rest + more)[n..] == rest[n..] + more;
    }
  }

  lemma RecordGrows(input: Bytes, more: Bytes)
    ensures BeResponseRecord(input).Ok? ==>
              BeResponseRecord(input + more) == Ok(BeResponseRecord(input).rest + more, BeResponseRecord(input).value)
    ensures !BeResponseRecord(input).Ok? ==> BeResponseRecord(input) == Incomplete
  {
    hide BeField;
    var f1 := BeField(input);
    FieldGrows(input, more);
    if f1.Ok? {
      var f2 := BeField(f1.rest);
      FieldGrows(f1.rest, more);
      if f2.Ok? {
        var f3 := BeField(f2.rest);
        FieldGrows(f2.rest, more);
        if f3.Ok? {
          FieldGrows(f3.rest, more);
          if BeField(f3.rest).Ok? {
            FieldGrows(BeField(f3.rest).rest, more);
          }
        }
      }
    }
  }

  lemma {:induction false} RecordsGrow(input: Bytes, count: nat, more: Bytes)
    ensures BeResponseRecords(input, count).Ok? ==>
              BeResponseRecords(input + more, count) ==
              Ok(BeResponseRecords(input, count).rest + more, BeResponseRecords(input, count).value)
    ensures !BeResponseRecords(input, count).Ok? ==> BeResponseRecords(input, count) == Incomplete
    decreases count
  {
    hide BeResponseRecord;
    if count > 0 {
      RecordGrows(input, more);
      if BeResponseRecord(input).Ok? {
        RecordsGrow(BeResponseRecord(input).rest, count - 1, more);
      }
    }
  }

  /** No strict prefix of an encoding decodes: the decoder asks for more. */
  lemma StrictPrefixIncomplete(rs: seq<ResponseRecord>, k: nat)
    requires ResponseOk(rs) && k < |ResponseBytes(rs)|
    ensures BeMultiResponse(ResponseBytes(rs)[..k]) == Incomplete
  {
    var whole := ResponseBytes(rs);
    var input, more := whole[..k], whole[k..];
    assert whole == input + more;
    RoundTrip(rs, []);
    assert whole + [] == whole;
    if k >= 4 {
      assert whole[..4] == input[..4] && whole[4..] == input[4..] + more;
      RecordsGrow(input[4..], BeU32(input).value, more);
    }
  }
}
