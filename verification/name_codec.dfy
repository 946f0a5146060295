/** Writing and reading domain names with message compression (section 4.1.4 of RFC 1035). */
module NameCodec {
  import opened Bytes
  import opened Names

  /** From the dotted form of a suffix to the offset it was first written at. */
  type Compression = map<Name, nat>

  /** What a writer appends, and the compression context it leaves. */
  datatype Encoded = Encoded(bytes: Bytes, ctx: Compression)

  const MAX_POINTER := 0x3FFF

  /** The encoding of a label sequence that starts at offset `start` of the message.
      It depends on what was written before only through `start` and `ctx`. */
  function EncodeLabels(start: nat, labels: seq<Label>, ctx: Compression): (e: Encoded)
    ensures e.bytes != []
    decreases |labels|
  {
    if labels == [] then Encoded([0], ctx)
    else
      var suffix := Join(labels);
      if suffix in ctx then Encoded(BE(0xC000 + ctx[suffix] % 0x4000, 2), ctx)
      else
        var ctx' := if start <= MAX_POINTER then ctx[suffix := start] else ctx;
        var head := [|labels[0]| % 256] + labels[0];
        var tail := EncodeLabels(start + |head|, labels[1..], ctx');
        Encoded(head + tail.bytes, tail.ctx)
  }

  function EncodeName(start: nat, name: Name, ctx: Compression): (e: Encoded)
    ensures e.bytes != []
  {
    EncodeLabels(start, Labels(name), ctx)
  }

  function PointerTarget(high: byte, low: byte): nat
    requires high >= 0xC0
  {
    (high - 0xC0) * 256 + low
  }

  ghost function Unvisited(origin: Bytes, visited: seq<nat>): set<nat> {
    set o: nat | o < |origin| && o !in visited
  }

  /** Following a pointer that passes the check shrinks the set of unvisited offsets. */
  lemma PointerProgress(origin: Bytes, visited: seq<nat>, offset: nat)
    requires offset < |origin| && offset !in visited
    ensures Unvisited(origin, visited + [offset]) < Unvisited(origin, visited)
  {
    assert offset in Unvisited(origin, visited);
    assert offset !in Unvisited(origin, visited + [offset]);
  }

  /** The labels read from `input`, following pointers into `origin`; `visited` holds the
      offsets of the pointers being followed. */
  function ParseLabels(input: Bytes, origin: Bytes, visited: seq<nat>): Parsed<seq<Bytes>>
    decreases Unvisited(origin, visited), |input|
  {
    var (remain, len) :- BeU8(input);
    if len == 0 then Ok(remain, [])
    else if len >= 0xC0 then
      var (remain, low) :- BeU8(remain);
      var offset := PointerTarget(len, low);
      if offset >= |origin| || offset in visited then Error(input)
      else
        PointerProgress(origin, visited, offset);
        var (_, suffix) :- ParseLabels(origin[offset..], origin, visited + [offset]);
        Ok(remain, suffix)
    else if len > 63 then Error(input)
    else
      var (remain, part) :- Take(remain, len);
      var (remain, labels) :- ParseLabels(remain, origin, visited);
      Ok(remain, [part] + labels)
  }

  function BeName(input: Bytes, origin: Bytes): Parsed<Name> {
    var (remain, labels) :- ParseLabels(input, origin, []);
    Ok(remain, Show(labels))
  }

  /** The growing message. */
  class Buffer {
    var bytes: Bytes

    constructor ()
      ensures bytes == []
    {
      bytes := [];
    }

    method Put(more: Bytes)
      modifies this
      ensures bytes == old(bytes) + more
    {
      bytes := bytes + more;
    }

    method Patch(pos: nat, value: byte)
      requires pos < |bytes|
      modifies this
      ensures bytes == old(bytes)[pos := value]
    {
      bytes := bytes[pos := value];
    }
  }

  class NameCompression {
    var suffixOffsets: Compression

    constructor ()
      ensures suffixOffsets == map[]
    {
      suffixOffsets := map[];
    }

    /** Keeps the first offset of a suffix. */
    method RememberSuffix(suffix: Name, offset: nat)
      modifies this
      ensures suffixOffsets ==
              if suffix in old(suffixOffsets) then old(suffixOffsets)
              else old(suffixOffsets)[suffix := offset]
    {
      if suffix !in suffixOffsets {
        suffixOffsets := suffixOffsets[suffix := offset];
      }
    }
  }

  method SplitLabels(name: Name) returns (labels: seq<Label>)
    ensures labels == Labels(name)
  {
    labels := [];
    if name == ROOT {
      LabelsTrailingDot([]);
      assert [] + [DOT] == ROOT;
      LabelsOfJoin([]);
      return;
    }
    var trimmed := name;
    if name != [] && name[|name| - 1] == DOT {
      trimmed := name[..|name| - 1];
      LabelsTrailingDot(trimmed);
      assert trimmed + [DOT] == name;
    }
    var parts := Split(trimmed);
    assert forall i :: 0 <= i < |parts| ==> parts[i] in parts;
    for i := 0 to |parts|
      invariant labels == NonEmpty(parts[..i])
    {
      NonEmptyConcat(parts[..i], [parts[i]]);
      assert parts[..i + 1] == parts[..i] + [parts[i]];
      assert NonEmpty([parts[i]]) == if parts[i] == [] then [] else [parts[i]] + NonEmpty([]);
      if parts[i] != [] {
        labels := labels + [parts[i]];
      }
    }
    assert parts[..|parts|] == parts;
  }

  function SuffixNames(labels: seq<Label>): (r: seq<Name>)
    ensures |r| == |labels|
  {
    if labels == [] then [] else [Join(labels)] + SuffixNames(labels[1..])
  }

  lemma {:induction false} SuffixNamesAt(labels: seq<Label>, k: nat)
    requires k < |labels|
    ensures SuffixNames(labels)[k] == Join(labels[k..])
  {
    if k > 0 {
      SuffixNamesAt(labels[1..], k - 1);
      assert labels[1..][k - 1..] == labels[k..];
    } else {
      assert labels[0..] == labels;
    }
  }

  method Suffixes(labels: seq<Label>) returns (suffixes: seq<Name>)
    ensures suffixes == SuffixNames(labels)
  {
    suffixes := [];
    var current: Name := [];
    for i := |labels| downto 0
      invariant current == Join(labels[i..])
      invariant suffixes == SuffixNames(labels[i..])
    {
      var part := labels[i];
      assert labels[i..][1..] == labels[i + 1..];
      if current == [] {
        assert i + 1 == |labels|;
        current := part;
      } else {
        current := part + [DOT] + current;
      }
      suffixes := [current] + suffixes;
    }
    assert labels[0..] == labels;
  }

  /** `now` with the encoding of `labels` still to come is `whole`. */
  ghost predicate Completes(whole: Encoded, now: Bytes, labels: seq<Label>, ctx: Compression) {
    var rest := EncodeLabels(|now|, labels, ctx);
    whole.bytes == now + rest.bytes && whole.ctx == rest.ctx
  }

  lemma CompletesStep(whole: Encoded, now: Bytes, labels: seq<Label>, ctx: Compression)
    requires Completes(whole, now, labels, ctx)
    requires labels != [] && Join(labels) !in ctx
    ensures var ctx' := if |now| <= MAX_POINTER then ctx[Join(labels) := |now|] else ctx;
            Completes(whole, now + ([|labels[0]| % 256] + labels[0]), labels[1..], ctx')
  {
    var head := [|labels[0]| % 256] + labels[0];
    var ctx' := if |now| <= MAX_POINTER then ctx[Join(labels) := |now|] else ctx;
    var rest := EncodeLabels(|now| + |head|, labels[1..], ctx');
    assert |now + head| == |now| + |head|;
    assert now + (head + rest.bytes) == now + head + rest.bytes;
  }

  method PutLabel(buf: Buffer, part: Label, suffix: Name, ctx: NameCompression)
    requires suffix !in ctx.suffixOffsets
    modifies buf, ctx
    ensures buf.bytes == old(buf.bytes) + ([|part| % 256] + part)
    ensures ctx.suffixOffsets ==
            if |old(buf.bytes)| <= MAX_POINTER then old(ctx.suffixOffsets)[suffix := |old(buf.bytes)|]
            else old(ctx.suffixOffsets)
  {
    if |buf.bytes| <= MAX_POINTER {
      ctx.RememberSuffix(suffix, |buf.bytes|);
    }
    buf.Put([|part| % 256] + part);
  }

  method PutLabels(buf: Buffer, labels: seq<Label>, suffixes: seq<Name>, ctx: NameCompression)
    requires suffixes == SuffixNames(labels)
    modifies buf, ctx
    ensures Completes(Encoded(buf.bytes, ctx.suffixOffsets), old(buf.bytes), labels, old(ctx.suffixOffsets))
  {
    ghost var e := EncodeLabels(|buf.bytes|, labels, ctx.suffixOffsets);
    ghost var whole := Encoded(buf.bytes + e.bytes, e.ctx);
    assert labels[0..] == labels;
    for i := 0 to |labels|
      invariant Completes(whole, buf.bytes, labels[i..], ctx.suffixOffsets)
    {
      var suffix := suffixes[i];
      SuffixNamesAt(labels, i);
      if suffix in ctx.suffixOffsets {
        buf.Put(BE(0xC000 + ctx.suffixOffsets[suffix] % 0x4000, 2));
        return;
      }
      CompletesStep(whole, buf.bytes, labels[i..], ctx.suffixOffsets);
      assert labels[i..][1..] == labels[i + 1..];
      PutLabel(buf, labels[i], suffix, ctx);
    }
    buf.Put([0]);
  }

  /** Appends a name, reusing the longest suffix already written; returns the bytes added. */
  method PutName(buf: Buffer, name: Name, ctx: NameCompression) returns (written: nat)
    modifies buf, ctx
    ensures var e := EncodeName(|old(buf.bytes)|, name, old(ctx.suffixOffsets));
            && buf.bytes == old(buf.bytes) + e.bytes
            && ctx.suffixOffsets == e.ctx
            && written == |e.bytes|
  {
    var start := |buf.bytes|;
    var labels := SplitLabels(name);
    var suffixes := Suffixes(labels);
    PutLabels(buf, labels, suffixes, ctx);
    written := |buf.bytes| - start;
  }

  class VisitedStack {
    var offsets: seq<nat>

    constructor ()
      ensures offsets == []
    {
      offsets := [];
    }

    /** No offset is repeated or outside the message. */
    ghost predicate Valid(origin: Bytes)
      reads this
    {
      && (forall i :: 0 <= i < |offsets| ==> offsets[i] < |origin|)
      && (forall i, j :: 0 <= i < j < |offsets| ==> offsets[i] != offsets[j])
    }
  }

  function Prepend(labels: seq<Bytes>, r: Parsed<seq<Bytes>>): Parsed<seq<Bytes>> {
    if r.Ok? then Ok(r.rest, labels + r.value) else r
  }

  lemma PrependParts(labels: seq<Bytes>, part: Bytes, r: Parsed<seq<Bytes>>)
    ensures Prepend([], r) == r
    ensures Prepend(labels, Prepend([part], r)) == Prepend(labels + [part], r)
  {
    if r.Ok? {
      assert [] + r.value == r.value;
      assert labels + ([part] + r.value) == labels + [part] + r.value;
    }
  }

  method BeNameLabels(start: Bytes, origin: Bytes, visited: VisitedStack) returns (r: Parsed<seq<Bytes>>)
    requires visited.Valid(origin)
    modifies visited
    ensures r == ParseLabels(start, origin, old(visited.offsets))
    ensures visited.Valid(origin)
    ensures r.Ok? ==> visited.offsets == old(visited.offsets)
    decreases Unvisited(origin, visited.offsets)
  {
    var labels: seq<Bytes> := [];
    var input := start;
    PrependParts([], [], ParseLabels(start, origin, visited.offsets));
    while true
      invariant visited.offsets == old(visited.offsets)
      invariant var now := ParseLabels(input, origin, visited.offsets);
                ParseLabels(start, origin, visited.offsets) == Prepend(labels, now)
      decreases |input|
    {
      if input == [] {
        return Incomplete;
      }
      var len := input[0];
      if len == 0 {
        assert labels + [] == labels;
        return Ok(input[1..], labels);
      }
      if len >= 0xC0 {
        if |input| == 1 {
          return Incomplete;
        }
        var offset := PointerTarget(len, input[1]);
        if offset >= |origin| || offset in visited.offsets {
          return Error(input);
        }
        PointerProgress(origin, visited.offsets, offset);
        visited.offsets := visited.offsets + [offset];
        var suffix := BeNameLabels(origin[offset..], origin, visited);
        if !suffix.Ok? {
          return suffix;
        }
        visited.offsets := visited.offsets[..|visited.offsets| - 1];
        return Ok(input[2..], labels + suffix.value);
      }
      if len > 63 {
        return Error(input);
      }
      var taken := Take(input[1..], len);
      if !taken.Ok? {
        return Incomplete;
      }
      PrependParts(labels, taken.value, ParseLabels(taken.rest, origin, visited.offsets));
      labels := labels + [taken.value];
      input := taken.rest;
    }
  }
}
