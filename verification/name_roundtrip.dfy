/** Names written with compression read back, in every message and after every patch. */
module NameRoundTrip {
  import opened Bytes
  import opened Names
  import opened NameCodec

  /** The labels that the run at the front of `input` stands for, if every pointer on the way
      leads to an offset below `bound`, and below every pointer followed before it. */
  function Meaning(input: Bytes, origin: Bytes, bound: nat): Option<seq<Bytes>>
    decreases bound, |input|
  {
    if input == [] then None
    else if input[0] == 0 then Some([])
    else if input[0] >= 0xC0 then
      if |input| == 1 then None else
      var target := PointerTarget(input[0], input[1]);
      if target < bound && target < |origin| then Meaning(origin[target..], origin, target) else None
    else if input[0] > 63 || input[0] >= |input| then None
    else
      match Meaning(input[1 + input[0]..], origin, bound)
      case None => None
      case Some(labels) => Some([input[1..1 + input[0]]] + labels)
  }

  /** The bytes up to and including the terminator or pointer of the run. */
  function RunLength(input: Bytes): (n: nat)
    ensures n <= |input|
  {
    if input == [] then 0
    else if input[0] == 0 then 1
    else if input[0] >= 0xC0 then if |input| >= 2 then 2 else 1
    else if 1 + input[0] > |input| then |input|
    else 1 + input[0] + RunLength(input[1 + input[0]..])
  }

  lemma ParseLabel(input: Bytes, origin: Bytes, visited: seq<nat>)
    requires input != [] && 1 <= input[0] <= 63 && input[0] < |input|
    ensures var next := 1 + input[0];
            ParseLabels(input, origin, visited) ==
            Prepend([input[1..next]], ParseLabels(input[next..], origin, visited))
  {
    assert input[1..][..input[0]] == input[1..1 + input[0]];
    assert input[1..][input[0]..] == input[1 + input[0]..];
  }

  lemma ParseEnd(input: Bytes, origin: Bytes, visited: seq<nat>)
    requires input != [] && input[0] == 0
    ensures ParseLabels(input, origin, visited) == Ok(input[1..], [])
  {
  }

  lemma ParsePointer(input: Bytes, origin: Bytes, visited: seq<nat>)
    requires |input| >= 2 && input[0] >= 0xC0
    requires var target := PointerTarget(input[0], input[1]); target < |origin| && target !in visited
    ensures var target := PointerTarget(input[0], input[1]);
            var r := ParseLabels(origin[target..], origin, visited + [target]);
            ParseLabels(input, origin, visited) == if r.Ok? then Ok(input[2..], r.value) else r
  {
    assert input[1..][1..] == input[2..];
  }

  lemma {:induction false} MeaningParses(input: Bytes, origin: Bytes, bound: nat, visited: seq<nat>)
    requires Meaning(input, origin, bound).Some?
    requires forall v :: v in visited ==> v >= bound
    ensures ParseLabels(input, origin, visited) ==
            Ok(input[RunLength(input)..], Meaning(input, origin, bound).value)
    decreases bound, |input|
  {
    hide ParseLabels;
    if input[0] == 0 {
      ParseEnd(input, origin, visited);
    } else if input[0] >= 0xC0 {
      var target := PointerTarget(input[0], input[1]);
      MeaningParses(origin[target..], origin, target, visited + [target]);
      ParsePointer(input, origin, visited);
    } else {
      var next := 1 + input[0];
      MeaningParses(input[next..], origin, bound, visited);
      ParseLabel(input, origin, visited);
      var n := RunLength(input[next..]);
      assert input[next..][n..] == input[next + n..];
    }
  }

  lemma PrefixSlice(a: Bytes, b: Bytes, k: nat)
    requires a <= b && k <= |a|
    ensures a[k..] <= b[k..]
  {
    assert b[k..][..|a| - k] == a[k..];
  }

  /** Appending to the message, or to the slice being read, changes nothing. */
  lemma {:induction false} MeaningGrows(
    input: Bytes, origin: Bytes, bound: nat, input': Bytes, origin': Bytes, bound': nat)
    requires Meaning(input, origin, bound).Some?
    requires input <= input' && origin <= origin' && bound <= bound'
    ensures Meaning(input', origin', bound') == Meaning(input, origin, bound)
    ensures RunLength(input') == RunLength(input)
    decreases bound, |input|
  {
    if input[0] == 0 {
    } else if input[0] >= 0xC0 {
      var target := PointerTarget(input[0], input[1]);
      PrefixSlice(origin, origin', target);
      MeaningGrows(origin[target..], origin, target, origin'[target..], origin', target);
    } else {
      var next := 1 + input[0];
      PrefixSlice(input, input', next);
      MeaningGrows(input[next..], origin, bound, input'[next..], origin', bound');
      assert input'[1..next] == input[1..next];
    }
  }

  ghost predicate SoundEntry(suffix: Name, offset: nat, origin: Bytes) {
    && offset <= MAX_POINTER && offset < |origin|
    && Meaning(origin[offset..], origin, offset) == Some(Labels(suffix))
  }

  /** Every remembered suffix can be read at its offset. */
  ghost predicate Sound(ctx: Compression, origin: Bytes) {
    forall s :: s in ctx ==> SoundEntry(s, ctx[s], origin)
  }

  lemma SoundEntryGrows(suffix: Name, offset: nat, origin: Bytes, origin': Bytes)
    requires SoundEntry(suffix, offset, origin) && origin <= origin'
    ensures SoundEntry(suffix, offset, origin')
  {
    PrefixSlice(origin, origin', offset);
    MeaningGrows(origin[offset..], origin, offset, origin'[offset..], origin', offset);
  }

  lemma SoundGrows(ctx: Compression, origin: Bytes, origin': Bytes)
    requires Sound(ctx, origin) && origin <= origin'
    ensures Sound(ctx, origin')
  {
    forall s | s in ctx
      ensures SoundEntry(s, ctx[s], origin')
    {
      SoundEntryGrows(s, ctx[s], origin, origin');
    }
  }

  lemma MeaningPointer(offset: nat, origin: Bytes, labels: seq<Bytes>, bound: nat)
    requires offset <= MAX_POINTER && offset < bound && offset < |origin|
    requires Meaning(origin[offset..], origin, offset) == Some(labels)
    ensures Meaning(BE(0xC000 + offset, 2), origin, bound) == Some(labels)
    ensures RunLength(BE(0xC000 + offset, 2)) == 2
  {
    var n := 0xC000 + offset;
    assert BE(n / 256, 1) == BE(n / 256 / 256, 0) + [n / 256 % 256];
    assert BE(n, 2) == [n / 256, n % 256];
    assert PointerTarget(n / 256, n % 256) == offset;
  }

  /** The entries a name in progress can hit: those no longer than what is left of it. */
  ghost predicate SoundUpTo(ctx: Compression, length: nat, buf: Bytes, bound: nat) {
    forall k :: k in ctx && |k| <= length ==> ctx[k] < bound && SoundEntry(k, ctx[k], buf)
  }

  /** `ctx'` adds to `ctx` only entries that can be read in `buf`. */
  ghost predicate AddsSound(ctx: Compression, ctx': Compression, buf: Bytes) {
    && (forall k :: k in ctx ==> k in ctx' && ctx'[k] == ctx[k])
    && (forall k :: k in ctx' && k !in ctx ==> SoundEntry(k, ctx'[k], buf))
  }

  /** A label in front of a run that is already there. */
  lemma MeaningLabel(part: Bytes, tail: Bytes, origin: Bytes, labels: seq<Bytes>, bound: nat)
    requires 1 <= |part| <= 63 && Meaning(tail, origin, bound) == Some(labels)
    ensures Meaning([|part|] + part + tail, origin, bound) == Some([part] + labels)
    ensures RunLength([|part|] + part + tail) == 1 + |part| + RunLength(tail)
  {
    var run := [|part|] + part + tail;
    assert run[1..1 + |part|] == part && run[1 + |part|..] == tail;
    assert ([part] + labels)[1..] == labels;
  }

  /** The suffix of a name that starts where the run starts. */
  lemma EntryAt(buf: Bytes, labels: seq<Label>, run: Bytes, bound: nat)
    requires bound <= |buf| <= MAX_POINTER && Meaning(run, buf + run, bound) == Some(labels)
    ensures SoundEntry(Join(labels), |buf|, buf + run)
  {
    LabelsOfJoin(labels);
    assert (buf + run)[|buf|..] == run;
    MeaningGrows(run, buf + run, bound, run, buf + run, |buf|);
  }

  /** `e` writes `labels` at the end of `buf`, and promises nothing that is not there then. */
  ghost predicate Delivers(buf: Bytes, labels: seq<Label>, ctx: Compression, bound: nat, e: Encoded) {
    && Meaning(e.bytes, buf + e.bytes, bound) == Some(labels)
    && RunLength(e.bytes) == |e.bytes|
    && AddsSound(ctx, e.ctx, buf + e.bytes)
  }

  lemma DeliversPointer(buf: Bytes, labels: seq<Label>, ctx: Compression, bound: nat)
    requires bound <= |buf| && Join(labels) in ctx
    requires ctx[Join(labels)] < bound && SoundEntry(Join(labels), ctx[Join(labels)], buf)
    ensures Delivers(buf, labels, ctx, bound, Encoded(BE(0xC000 + ctx[Join(labels)], 2), ctx))
  {
    var offset := ctx[Join(labels)];
    var final := buf + BE(0xC000 + offset, 2);
    SoundEntryGrows(Join(labels), offset, buf, final);
    LabelsOfJoin(labels);
    MeaningPointer(offset, final, labels, bound);
  }

  lemma SoundEntryBound(suffix: Name, offset: nat, origin: Bytes)
    requires SoundEntry(suffix, offset, origin)
    ensures offset <= MAX_POINTER
  {
  }

  lemma DeliversEnd(buf: Bytes, ctx: Compression, bound: nat)
    ensures Delivers(buf, [], ctx, bound, Encoded([0], ctx))
  {
  }

  lemma EncodePointer(start: nat, labels: seq<Label>, ctx: Compression)
    requires labels != [] && Join(labels) in ctx && ctx[Join(labels)] <= MAX_POINTER
    ensures EncodeLabels(start, labels, ctx) == Encoded(BE(0xC000 + ctx[Join(labels)], 2), ctx)
  {
    hide BE, Join;
    assert ctx[Join(labels)] % 0x4000 == ctx[Join(labels)];
  }

  lemma DeliversLabel(buf: Bytes, labels: seq<Label>, ctx: Compression, bound: nat, tail: Encoded)
    requires labels != [] && |labels[0]| <= 63 && bound <= |buf| && Join(labels) !in ctx
    requires var ctx' := if |buf| <= MAX_POINTER then ctx[Join(labels) := |buf|] else ctx;
             Delivers(buf + ([|labels[0]|] + labels[0]), labels[1..], ctx', bound, tail)
    ensures Delivers(buf, labels, ctx, bound, Encoded([|labels[0]|] + labels[0] + tail.bytes, tail.ctx))
  {
    hide Meaning, RunLength, Join, SoundEntry;
    var run := [|labels[0]|] + labels[0] + tail.bytes;
    var final := buf + run;
    assert buf + ([|labels[0]|] + labels[0]) + tail.bytes == final;
    MeaningLabel(labels[0], tail.bytes, final, labels[1..], bound);
    assert [labels[0]] + labels[1..] == labels;
    if |buf| <= MAX_POINTER {
      EntryAt(buf, labels, run, bound);
    }
  }

  lemma SoundUpToTail(buf: Bytes, head: Bytes, labels: seq<Label>, ctx: Compression, bound: nat)
    requires labels != [] && Join(labels) !in ctx && SoundUpTo(ctx, |Join(labels)|, buf, bound)
    ensures var ctx' := if |buf| <= MAX_POINTER then ctx[Join(labels) := |buf|] else ctx;
            SoundUpTo(ctx', |Join(labels[1..])|, buf + head, bound)
  {
    JoinLonger(labels);
    var ctx' := if |buf| <= MAX_POINTER then ctx[Join(labels) := |buf|] else ctx;
    forall k | k in ctx' && |k| <= |Join(labels[1..])|
      ensures ctx'[k] < bound && SoundEntry(k, ctx'[k], buf + head)
    {
      SoundEntryGrows(k, ctx[k], buf, buf + head);
    }
  }

  lemma EncodeHead(
    start: nat, labels: seq<Label>, ctx: Compression, next: nat, ctx': Compression, tail: Encoded)
    requires labels != [] && Join(labels) !in ctx
    requires next == start + 1 + |labels[0]|
    requires ctx' == if start <= MAX_POINTER then ctx[Join(labels) := start] else ctx
    requires tail == EncodeLabels(next, labels[1..], ctx')
    ensures EncodeLabels(start, labels, ctx) == Encoded([|labels[0]| % 256] + labels[0] + tail.bytes, tail.ctx)
  {
  }

  /** In the middle of a name the map promises suffixes that are not there yet; they are all
      there when the name ends. */
  lemma {:induction false} EncodeLabelsSound(buf: Bytes, labels: seq<Label>, ctx: Compression, bound: nat)
    returns (e: Encoded)
    requires ShortLabels(labels) && bound <= |buf|
    requires SoundUpTo(ctx, |Join(labels)|, buf, bound)
    ensures e == EncodeLabels(|buf|, labels, ctx)
    ensures Delivers(buf, labels, ctx, bound, e)
    decreases |labels|
  {
    hide Delivers, Join, SoundEntry, BE;
    if labels == [] {
      DeliversEnd(buf, ctx, bound);
      e := Encoded([0], ctx);
    } else if Join(labels) in ctx {
      DeliversPointer(buf, labels, ctx, bound);
      SoundEntryBound(Join(labels), ctx[Join(labels)], buf);
      EncodePointer(|buf|, labels, ctx);
      e := Encoded(BE(0xC000 + ctx[Join(labels)], 2), ctx);
    } else {
      e := EncodeHeadSound(buf, labels, ctx, bound);
    }
  }

  lemma {:induction false} EncodeHeadSound(buf: Bytes, labels: seq<Label>, ctx: Compression, bound: nat)
    returns (e: Encoded)
    requires ShortLabels(labels) && bound <= |buf|
    requires SoundUpTo(ctx, |Join(labels)|, buf, bound)
    requires labels != [] && Join(labels) !in ctx
    ensures e == EncodeLabels(|buf|, labels, ctx)
    ensures Delivers(buf, labels, ctx, bound, e)
    decreases |labels|, 0
  {
    hide Delivers, Join, EncodeLabels;
    assert labels[0] in labels;
    var head := [|labels[0]|] + labels[0];
    var ctx' := if |buf| <= MAX_POINTER then ctx[Join(labels) := |buf|] else ctx;
    SoundUpToTail(buf, head, labels, ctx, bound);
    var tail := EncodeLabelsSound(buf + head, labels[1..], ctx', bound);
    assert |buf + head| == |buf| + |head|;
    DeliversLabel(buf, labels, ctx, bound, tail);
    EncodeHead(|buf|, labels, ctx, |buf + head|, ctx', tail);
    e := Encoded(head + tail.bytes, tail.ctx);
  }

  /** Writing a name keeps the buffer and the map in agreement, and the name reads back there
      in every extension of the message; its pointers lead strictly before it. */
  lemma WriteNameSound(buf: Bytes, name: Name, ctx: Compression)
    requires Sound(ctx, buf) && ShortLabels(Labels(name))
    ensures var e := EncodeName(|buf|, name, ctx);
            && Sound(e.ctx, buf + e.bytes)
            && Meaning(e.bytes, buf + e.bytes, |buf|) == Some(Labels(name))
            && RunLength(e.bytes) == |e.bytes|
  {
    var e := EncodeLabelsSound(buf, Labels(name), ctx, |buf|);
    SoundGrows(ctx, buf, buf + e.bytes);
  }

  lemma ReadName(buf: Bytes, name: Name, ctx: Compression, tail: Bytes, origin: Bytes)
    requires Sound(ctx, buf) && ShortLabels(Labels(name))
    requires buf + EncodeName(|buf|, name, ctx).bytes <= origin
    ensures BeName(EncodeName(|buf|, name, ctx).bytes + tail, origin) == Ok(tail, Normal(name))
  {
    var e := EncodeName(|buf|, name, ctx);
    WriteNameSound(buf, name, ctx);
    MeaningGrows(e.bytes, buf + e.bytes, |buf|, e.bytes + tail, origin, |buf|);
    MeaningParses(e.bytes + tail, origin, |buf|, []);
    assert (e.bytes + tail)[|e.bytes|..] == tail;
  }

  lemma {:induction false} ParsedLabelsShort(input: Bytes, origin: Bytes, visited: seq<nat>)
    ensures ParseLabels(input, origin, visited).Ok? ==> ShortLabels(ParseLabels(input, origin, visited).value)
    decreases Unvisited(origin, visited), |input|
  {
    if |input| >= 2 && input[0] >= 0xC0 {
      var offset := PointerTarget(input[0], input[1]);
      if offset < |origin| && offset !in visited {
        PointerProgress(origin, visited, offset);
        ParsedLabelsShort(origin[offset..], origin, visited + [offset]);
      }
    } else if input != [] && 0 < input[0] <= 63 && input[0] < |input| {
      ParsedLabelsShort(input[1..][input[0]..], origin, visited);
    }
  }

  /** A name with a label over 63 bytes is never what any parse returns. */
  lemma LongLabelNeverRead(name: Name, input: Bytes, origin: Bytes)
    requires !ShortLabels(Labels(name))
    ensures BeName(input, origin).Ok? ==> BeName(input, origin).value != Normal(name)
  {
    var l :| l in Labels(name) && |l| > 63;
    var k :| 0 <= k < |Labels(name)| && Labels(name)[k] == l;
    LongLabelLongRun(Labels(name), k);
    ParsedLabelsShort(input, origin, []);
    if BeName(input, origin).Ok? {
      ShortLabelsNoLongRun(ParseLabels(input, origin, []).value);
      assert !HasLongRun(ROOT);
    }
  }

  /** The writer only warns about labels over 63 bytes: exactly the others survive. */
  lemma RoundTripIffShort(buf: Bytes, name: Name, ctx: Compression, tail: Bytes)
    requires Sound(ctx, buf)
    ensures var e := EncodeName(|buf|, name, ctx);
            BeName(e.bytes + tail, buf + e.bytes + tail) == Ok(tail, Normal(name)) <==> ShortLabels(Labels(name))
  {
    var e := EncodeName(|buf|, name, ctx);
    if ShortLabels(Labels(name)) {
      ReadName(buf, name, ctx, tail, buf + e.bytes + tail);
    } else {
      LongLabelNeverRead(name, e.bytes + tail, buf + e.bytes + tail);
    }
  }

  /** A name of one 64-byte label is written, and does not come back. */
  lemma LongLabelExample(tail: Bytes)
    ensures var name: Name := seq(64, _ => 97);
            var written := EncodeName(0, name, map[]).bytes;
            BeName(written + tail, written + tail) != Ok(tail, Normal(name))
  {
    var name: Name := seq(64, _ => 97);
    assert Labels(name) == [name] by {
      SplitPlain(name);
      assert NonEmpty([name]) == [name] + NonEmpty([]);
    }
    assert name in Labels(name);
    var written := EncodeName(0, name, map[]).bytes;
    LongLabelNeverRead(name, written + tail, written + tail);
  }

  lemma {:induction false} ParseConsumes(input: Bytes, origin: Bytes, visited: seq<nat>)
    ensures var r := ParseLabels(input, origin, visited);
            r.Ok? ==> |r.rest| < |input|
    decreases |input|
  {
    if input != [] && 0 < input[0] <= 63 && input[0] < |input| {
      ParseConsumes(input[1..][input[0]..], origin, visited);
    }
  }

  lemma {:induction false} EncodedLength(start: nat, labels: seq<Label>, ctx: Compression)
    ensures |EncodeLabels(start, labels, ctx).bytes| <= |Join(labels)| + 2
    decreases |labels|
  {
    if labels != [] && Join(labels) !in ctx {
      var head := [|labels[0]| % 256] + labels[0];
      var ctx' := if start <= MAX_POINTER then ctx[Join(labels) := start] else ctx;
      EncodedLength(start + |head|, labels[1..], ctx');
      if |labels| == 1 {
        assert labels[1..] == [];
      }
    }
  }

  // ------------------------------------------------------------------------------------------
  // What compression saves

  function LabelsBytes(labels: seq<Label>): Bytes {
    if labels == [] then [] else [|labels[0]| % 256] + labels[0] + LabelsBytes(labels[1..])
  }

  lemma {:induction false} SuffixShorter(labels: seq<Label>, j: nat)
    requires 0 < j <= |labels|
    ensures |Join(labels[j..])| < |Join(labels)|
  {
    JoinLonger(labels);
    if j > 1 {
      SuffixShorter(labels[1..], j - 1);
      assert labels[1..][j - 1..] == labels[j..];
    }
  }

  lemma SuffixesApart(labels: seq<Label>)
    requires labels != []
    ensures forall j :: 0 <= j < |labels| - 1 ==>
              labels[1..][j..] == labels[j + 1..] && Join(labels[1..][j..]) != Join(labels)
  {
    hide Join;
    forall j | 0 <= j < |labels| - 1
      ensures labels[1..][j..] == labels[j + 1..] && Join(labels[1..][j..]) != Join(labels)
    {
      assert labels[1..][j..] == labels[j + 1..];
      SuffixShorter(labels, j + 1);
    }
  }

  lemma HeadBytes(labels: seq<Label>, k: nat, end: Bytes)
    requires 0 < k <= |labels|
    ensures LabelsBytes(labels[..k]) + end ==
            [|labels[0]| % 256] + labels[0] + (LabelsBytes(labels[1..][..k - 1]) + end)
  {
    assert labels[..k][0] == labels[0] && labels[..k][1..] == labels[1..][..k - 1];
  }

  /** Exactly the labels before the first remembered suffix are written, and then two bytes that
      point to it; if no suffix is remembered, all of them and the terminator. */
  lemma {:induction false} CompressedExactly(start: nat, labels: seq<Label>, ctx: Compression, k: nat)
    requires k <= |labels| && forall j :: 0 <= j < k ==> Join(labels[j..]) !in ctx
    requires k < |labels| ==> Join(labels[k..]) in ctx && ctx[Join(labels[k..])] <= 0x3FFF
    ensures EncodeLabels(start, labels, ctx).bytes ==
            LabelsBytes(labels[..k]) +
            if k < |labels| then BE(0xC000 + ctx[Join(labels[k..])], 2) else [0]
    decreases |labels|
  {
    hide BE, Join;
    assert labels[0..] == labels;
    if k == 0 {
      if labels != [] {
        EncodePointer(start, labels, ctx);
      }
    } else {
      var tail, next := labels[1..], start + 1 + |labels[0]|;
      var ctx' := if start <= MAX_POINTER then ctx[Join(labels) := start] else ctx;
      SuffixesApart(labels);
      CompressedExactly(next, tail, ctx', k - 1);
      EncodeHead(start, labels, ctx, next, ctx', EncodeLabels(next, tail, ctx'));
      hide EncodeLabels;
      HeadBytes(labels, k, if k < |labels| then BE(0xC000 + ctx[Join(labels[k..])], 2) else [0]);
    }
  }

  /** What a name adds to the context: nothing longer than itself, and itself exactly if it starts
      where a pointer can reach. */
  lemma {:induction false} RememberedIff(start: nat, labels: seq<Label>, ctx: Compression)
    ensures var e := EncodeLabels(start, labels, ctx);
            && (forall k :: k in ctx ==> k in e.ctx && e.ctx[k] == ctx[k])
            && (forall k :: k in e.ctx && k !in ctx ==> |k| <= |Join(labels)| && labels != [])
            && (labels != [] ==> (Join(labels) in e.ctx <==> Join(labels) in ctx || start <= 0x3FFF))
    decreases |labels|
  {
    hide BE, Join;
    if labels != [] && Join(labels) !in ctx {
      var next := start + 1 + |labels[0]|;
      var ctx' := if start <= MAX_POINTER then ctx[Join(labels) := start] else ctx;
      SuffixShorter(labels, 1);
      RememberedIff(next, labels[1..], ctx');
      EncodeHead(start, labels, ctx, next, ctx', EncodeLabels(next, labels[1..], ctx'));
      hide EncodeLabels;
    }
  }

  /** So a name written before at such an offset costs two bytes the next time, wherever that is. */
  lemma RepeatCostsTwo(start: nat, name: Name, ctx: Compression, again: nat)
    requires Labels(name) != [] && start <= 0x3FFF
    requires forall k :: k in ctx ==> ctx[k] <= 0x3FFF
    ensures |EncodeName(again, name, EncodeName(start, name, ctx).ctx).bytes| == 2
  {
    hide Labels, Join, BE;
    var labels := Labels(name);
    var e := EncodeLabels(start, labels, ctx);
    RememberedIff(start, labels, ctx);
    assert EncodeLabels(again, labels, e.ctx).bytes == BE(0xC000 + e.ctx[Join(labels)] % 0x4000, 2);
  }

  // ------------------------------------------------------------------------------------------
  // Pointers in any direction

  /** Reading without a stack of visited offsets, for at most `jumps` pointers. */
  function Walk(input: Bytes, origin: Bytes, jumps: nat): Option<Parsed<seq<Bytes>>>
    decreases jumps, |input|
  {
    if input == [] then Some(Incomplete)
    else if input[0] == 0 then Some(Ok(input[1..], []))
    else if input[0] >= 0xC0 then
      if |input| == 1 then Some(Incomplete)
      else
        var target := PointerTarget(input[0], input[1]);
        if target >= |origin| then Some(Error(input))
        else if jumps == 0 then None
        else Jumped(input, Walk(origin[target..], origin, jumps - 1))
    else if input[0] > 63 then Some(Error(input))
    else if input[0] >= |input| then Some(Incomplete)
    else Behind(input[1..1 + input[0]], Walk(input[1 + input[0]..], origin, jumps))
  }

  function Jumped(input: Bytes, w: Option<Parsed<seq<Bytes>>>): Option<Parsed<seq<Bytes>>>
    requires |input| >= 2
  {
    if w.Some? && w.value.Ok? then Some(Ok(input[2..], w.value.value)) else w
  }

  function Behind(part: Bytes, w: Option<Parsed<seq<Bytes>>>): Option<Parsed<seq<Bytes>>> {
    if w.Some? then Some(Prepend([part], w.value)) else None
  }

  lemma {:induction false} WalkOn(input: Bytes, origin: Bytes, jumps: nat)
    requires Walk(input, origin, jumps).Some?
    ensures Walk(input, origin, jumps + 1) == Walk(input, origin, jumps)
    decreases jumps, |input|
  {
    hide Prepend;
    if |input| >= 2 && input[0] >= 0xC0 && jumps > 0 {
      var target := PointerTarget(input[0], input[1]);
      if target < |origin| {
        WalkOn(origin[target..], origin, jumps - 1);
      }
    } else if input != [] && 0 < input[0] <= 63 && input[0] < |input| {
      WalkOn(input[1 + input[0]..], origin, jumps);
    }
  }

  /** `jumps` are needed from here: fewer do not reach the end. */
  ghost predicate Needs(input: Bytes, origin: Bytes, jumps: nat) {
    jumps > 0 ==> Walk(input, origin, jumps - 1).None?
  }

  ghost predicate AllNeed(visited: seq<nat>, origin: Bytes, jumps: nat) {
    forall v :: v in visited ==> v < |origin| && Needs(origin[v..], origin, jumps)
  }

  lemma AllNeedLess(visited: seq<nat>, origin: Bytes, jumps: nat, target: nat)
    requires jumps > 0 && AllNeed(visited, origin, jumps)
    requires target < |origin| && Needs(origin[target..], origin, jumps - 1)
    ensures AllNeed(visited + [target], origin, jumps - 1)
  {
    forall v | v in visited + [target]
      ensures v < |origin| && Needs(origin[v..], origin, jumps - 1)
    {
      if v in visited && jumps > 1 && Walk(origin[v..], origin, jumps - 2).Some? {
        WalkOn(origin[v..], origin, jumps - 2);
      }
    }
  }

  lemma TargetUnvisited(visited: seq<nat>, origin: Bytes, jumps: nat, target: nat)
    requires jumps > 0 && AllNeed(visited, origin, jumps) && target < |origin|
    requires Walk(origin[target..], origin, jumps - 1).Some?
    ensures target !in visited
  {
  }

  predicate AtPointer(input: Bytes, origin: Bytes) {
    |input| >= 2 && input[0] >= 0xC0 && PointerTarget(input[0], input[1]) < |origin|
  }

  predicate AtLabel(input: Bytes) {
    input != [] && 0 < input[0] <= 63 && input[0] < |input|
  }

  /** Anywhere else both readers are done, and agree. */
  lemma WalkDone(input: Bytes, origin: Bytes, jumps: nat, visited: seq<nat>)
    requires !AtPointer(input, origin) && !AtLabel(input)
    ensures Walk(input, origin, jumps) == Some(ParseLabels(input, origin, visited))
  {
  }

  lemma WalkPointer(input: Bytes, origin: Bytes, jumps: nat)
    requires AtPointer(input, origin) && jumps > 0
    ensures Walk(input, origin, jumps) ==
            Jumped(input, Walk(origin[PointerTarget(input[0], input[1])..], origin, jumps - 1))
  {
  }

  lemma WalkLabel(input: Bytes, origin: Bytes, jumps: nat)
    requires AtLabel(input)
    ensures Walk(input, origin, jumps) ==
            Behind(input[1..1 + input[0]], Walk(input[1 + input[0]..], origin, jumps))
  {
  }

  lemma NoJumpsLeft(input: Bytes, origin: Bytes)
    requires AtPointer(input, origin)
    ensures Walk(input, origin, 0).None?
  {
  }

  /** A walk that ends visits no offset twice, so the stack does not stop it. */
  lemma {:induction false} WalkParses(input: Bytes, origin: Bytes, jumps: nat, visited: seq<nat>)
    requires Walk(input, origin, jumps).Some? && Needs(input, origin, jumps) && AllNeed(visited, origin, jumps)
    ensures ParseLabels(input, origin, visited) == Walk(input, origin, jumps).value
    decreases jumps, |input|
  {
    hide AllNeed, ParseLabels, Walk;
    if AtPointer(input, origin) {
      var target := PointerTarget(input[0], input[1]);
      NoJumpsLeft(input, origin);
      WalkPointer(input, origin, jumps);
      if jumps > 1 {
        WalkPointer(input, origin, jumps - 1);
      }
      TargetUnvisited(visited, origin, jumps, target);
      AllNeedLess(visited, origin, jumps, target);
      WalkParses(origin[target..], origin, jumps - 1, visited + [target]);
      ParsePointer(input, origin, visited);
    } else if AtLabel(input) {
      WalkLabel(input, origin, jumps);
      if jumps > 0 {
        WalkLabel(input, origin, jumps - 1);
      }
      WalkParses(input[1 + input[0]..], origin, jumps, visited);
      ParseLabel(input, origin, visited);
    } else {
      WalkDone(input, origin, jumps, visited);
    }
  }

  /** The other way: what the parser reads, other than an error, is where a walk ends. */
  lemma {:induction false} ParseWalks(input: Bytes, origin: Bytes, visited: seq<nat>) returns (jumps: nat)
    ensures ParseLabels(input, origin, visited).Error? ||
            Walk(input, origin, jumps) == Some(ParseLabels(input, origin, visited))
    decreases Unvisited(origin, visited), |input|
  {
    hide ParseLabels, Walk;
    jumps := 0;
    if AtPointer(input, origin) {
      var target := PointerTarget(input[0], input[1]);
      if target in visited {
        VisitedStops(input, origin, visited);
      } else {
        PointerProgress(origin, visited, target);
        var rest := ParseWalks(origin[target..], origin, visited + [target]);
        ParsePointer(input, origin, visited);
        WalkPointer(input, origin, rest + 1);
        jumps := rest + 1;
      }
    } else if AtLabel(input) {
      jumps := ParseWalks(input[1 + input[0]..], origin, visited);
      ParseLabel(input, origin, visited);
      WalkLabel(input, origin, jumps);
    } else {
      WalkDone(input, origin, 0, visited);
    }
  }

  lemma VisitedStops(input: Bytes, origin: Bytes, visited: seq<nat>)
    requires AtPointer(input, origin) && PointerTarget(input[0], input[1]) in visited
    ensures ParseLabels(input, origin, visited) == Error(input)
  {
  }

  lemma {:induction false} LeastJumps(input: Bytes, origin: Bytes, jumps: nat) returns (least: nat)
    requires Walk(input, origin, jumps).Some?
    ensures Walk(input, origin, least) == Walk(input, origin, jumps) && Needs(input, origin, least)
  {
    if jumps == 0 || Walk(input, origin, jumps - 1).None? {
      least := jumps;
    } else {
      WalkOn(input, origin, jumps - 1);
      least := LeastJumps(input, origin, jumps - 1);
    }
  }

  /** Whatever direction its pointers go, a name is read as if there were no stack exactly if
      following them comes to an end; otherwise it is an error. */
  lemma PointersFollowed(input: Bytes, origin: Bytes)
    ensures forall jumps: nat :: Walk(input, origin, jumps).Some? ==>
              ParseLabels(input, origin, []) == Walk(input, origin, jumps).value
    ensures (forall jumps: nat :: Walk(input, origin, jumps).None?) ==> ParseLabels(input, origin, []).Error?
  {
    hide ParseLabels, Walk;
    forall jumps: nat | Walk(input, origin, jumps).Some?
      ensures ParseLabels(input, origin, []) == Walk(input, origin, jumps).value
    {
      var least := LeastJumps(input, origin, jumps);
      WalkParses(input, origin, least, []);
    }
    var jumps := ParseWalks(input, origin, []);
  }

  /** A pointer forward is followed. */
  lemma ForwardPointerExample()
    ensures var m: Bytes := [0xC0, 2, 1, 97, 0];
            BeName(m, m) == Ok([1, 97, 0], [97])
  {
    hide ParseLabels;
    var m: Bytes := [0xC0, 2, 1, 97, 0];
    assert m[2..] == [1, 97, 0];
    PointersFollowed(m, m);
    ShortWalk(m);
    assert Walk(m, m, 1) == Some(Ok(m[2..], [[97]]));
  }

  lemma ShortWalk(origin: Bytes)
    ensures Walk([1, 97, 0], origin, 0) == Some(Ok([], [[97]]))
  {
    assert [1, 97, 0][1..2] == [97] && [1, 97, 0][2..] == [0] && [0][1..] == [];
    assert [[97]] + [] == [[97]];
  }

  /** A pointer to itself is an error. */
  lemma SelfPointerExample()
    ensures var m: Bytes := [0xC0, 0];
            BeName(m, m) == Error(m)
  {
    var m: Bytes := [0xC0, 0];
    assert m[0..] == m;
    assert ParseLabels(m[0..], m, [0]) == Error(m);
  }

  // ------------------------------------------------------------------------------------------
  // Runs of a writer: names, other bytes, and single-byte patches of the other bytes.

  datatype Op = PutName(name: Name) | PutRaw(raw: Bytes) | Patch(pos: nat, value: byte)

  datatype Written = Written(start: nat, count: nat, name: Name)

  datatype Writer = Writer(buf: Bytes, ctx: Compression, names: seq<Written>)

  const EMPTY := Writer([], map[], [])

  /** A patch may touch any byte that is not part of a name, as the RDLENGTH patch does. */
  ghost predicate Allowed(w: Writer, op: Op) {
    match op
    case PutName(name) => ShortLabels(Labels(name))
    case PutRaw(_) => true
    case Patch(pos, _) =>
      && pos < |w.buf|
      && forall n :: n in w.names ==> !(n.start <= pos < n.start + n.count)
  }

  function Step(w: Writer, op: Op): Writer {
    match op
    case PutName(name) =>
      var e := EncodeName(|w.buf|, name, w.ctx);
      Writer(w.buf + e.bytes, e.ctx, w.names + [Written(|w.buf|, |e.bytes|, name)])
    case PutRaw(raw) => w.(buf := w.buf + raw)
    case Patch(pos, value) => if pos < |w.buf| then w.(buf := w.buf[pos := value]) else w
  }

  function Exec(ops: seq<Op>): Writer {
    if ops == [] then EMPTY else Step(Exec(ops[..|ops| - 1]), ops[|ops| - 1])
  }

  ghost predicate Legal(ops: seq<Op>) {
    ops == [] || (Legal(ops[..|ops| - 1]) && Allowed(Exec(ops[..|ops| - 1]), ops[|ops| - 1]))
  }

  ghost predicate PatchFree(ops: seq<Op>) {
    forall op :: op in ops ==> !op.Patch?
  }

  lemma ExecStep(ops: seq<Op>, op: Op)
    ensures Exec(ops + [op]) == Step(Exec(ops), op)
    ensures Legal(ops + [op]) <==> Legal(ops) && Allowed(Exec(ops), op)
  {
    assert (ops + [op])[..|ops|] == ops;
  }

  /** What a step appends does not depend on the bytes before it. */
  lemma StepCommutes(w: Writer, op: Op, pos: nat, value: byte)
    requires pos < |w.buf| && !op.Patch?
    ensures Step(w.(buf := w.buf[pos := value]), op) == Step(Step(w, op), Patch(pos, value))
  {
    var added := if op.PutName? then EncodeName(|w.buf|, op.name, w.ctx).bytes else op.raw;
    assert w.buf[pos := value] + added == (w.buf + added)[pos := value];
  }

  /** A byte behind the message that a legal patch may touch was not written by a name. */
  lemma LastIsRaw(before: Writer, last: Op, pos: nat, value: byte)
    requires !last.Patch? && pos >= |before.buf| && Allowed(Step(before, last), Patch(pos, value))
    ensures last.PutRaw?
  {
    var w := Step(before, last);
    assert last.PutName? ==>
        var n := Written(|before.buf|, |EncodeName(|before.buf|, last.name, before.ctx).bytes|, last.name);
        w.names == before.names + [n] && n in w.names;
  }

  /** So a patched run is the run that wrote the patched value in the first place. */
  lemma {:induction false} PatchResolves(ops: seq<Op>, pos: nat, value: byte) returns (ops': seq<Op>)
    requires Legal(ops) && PatchFree(ops) && Allowed(Exec(ops), Patch(pos, value))
    ensures Legal(ops') && PatchFree(ops') && Exec(ops') == Step(Exec(ops), Patch(pos, value))
    decreases |ops|
  {
    var init, last := ops[..|ops| - 1], ops[|ops| - 1];
    var before := Exec(init);
    assert last in ops;
    if pos < |before.buf| {
      assert forall n :: n in before.names ==> n in Exec(ops).names;
      var init' := PatchResolves(init, pos, value);
      ExecStep(init', last);
      StepCommutes(before, last, pos, value);
      ops' := init' + [last];
    } else {
      LastIsRaw(before, last, pos, value);
      var raw' := last.raw[pos - |before.buf| := value];
      ExecStep(init, PutRaw(raw'));
      assert before.buf + raw' == (before.buf + last.raw)[pos := value];
      ops' := init + [PutRaw(raw')];
    }
  }

  lemma {:induction false} Resolve(ops: seq<Op>) returns (ops': seq<Op>)
    requires Legal(ops)
    ensures Legal(ops') && PatchFree(ops') && Exec(ops') == Exec(ops)
    decreases |ops|
  {
    if ops == [] {
      return [];
    }
    var init, last := ops[..|ops| - 1], ops[|ops| - 1];
    var init' := Resolve(init);
    if last.Patch? {
      ops' := PatchResolves(init', last.pos, last.value);
    } else {
      ExecStep(init', last);
      ops' := init' + [last];
    }
  }

  ghost predicate Readable(n: Written, buf: Bytes) {
    && n.start + n.count <= |buf|
    && Meaning(buf[n.start..], buf, n.start) == Some(Labels(n.name))
    && RunLength(buf[n.start..]) == n.count
  }

  lemma ReadableGrows(n: Written, buf: Bytes, buf': Bytes)
    requires Readable(n, buf) && buf <= buf'
    ensures Readable(n, buf')
  {
    PrefixSlice(buf, buf', n.start);
    MeaningGrows(buf[n.start..], buf, n.start, buf'[n.start..], buf', n.start);
  }

  lemma {:induction false} PatchFreeReadable(ops: seq<Op>)
    requires Legal(ops) && PatchFree(ops)
    ensures Sound(Exec(ops).ctx, Exec(ops).buf)
    ensures forall n :: n in Exec(ops).names ==> Readable(n, Exec(ops).buf)
    decreases |ops|
  {
    if ops != [] {
      var init, last := ops[..|ops| - 1], ops[|ops| - 1];
      var before, w := Exec(init), Exec(ops);
      assert last in ops;
      PatchFreeReadable(init);
      forall n | n in before.names
        ensures Readable(n, w.buf)
      {
        ReadableGrows(n, before.buf, w.buf);
      }
      if last.PutName? {
        WriteNameSound(before.buf, last.name, before.ctx);
        assert w.buf[|before.buf|..] == EncodeName(|before.buf|, last.name, before.ctx).bytes;
      } else {
        SoundGrows(before.ctx, before.buf, w.buf);
      }
    }
  }

  /** Main result on names: in every run, every name reads back from the final message at the
      offset where it was written, consuming exactly the reported bytes. */
  lemma EveryNameReadsBack(ops: seq<Op>, n: Written)
    requires Legal(ops) && n in Exec(ops).names
    ensures var w := Exec(ops);
            && n.start + n.count <= |w.buf|
            && BeName(w.buf[n.start..], w.buf) == Ok(w.buf[n.start + n.count..], Normal(n.name))
            && Meaning(w.buf[n.start..], w.buf, n.start) == Some(Labels(n.name))
  {
    var ops' := Resolve(ops);
    var w := Exec(ops);
    PatchFreeReadable(ops');
    assert Readable(n, w.buf);
    MeaningParses(w.buf[n.start..], w.buf, n.start, []);
    assert w.buf[n.start..][n.count..] == w.buf[n.start + n.count..];
  }
}
