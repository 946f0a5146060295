/** QUIC variable-length integers (section 16 of RFC 9000). */
module VarInt {
  import opened Bytes

  const VARINT_MAX := 0x3fff_ffff_ffff_ffff

  type varint = n: nat | n <= VARINT_MAX

  function EncodingSize(x: varint): nat {
    if x < 0x40 then 1 else if x < 0x4000 then 2 else if x < 0x4000_0000 then 4 else 8
  }

  function Encode(x: varint): Bytes {
    if x < 0x40 then BE(x, 1)
    else if x < 0x4000 then BE(0x4000 + x, 2)
    else if x < 0x4000_0000 then BE(0x8000_0000 + x, 4)
    else BE(0xC000_0000_0000_0000 + x, 8)
  }

  /** The length announced by the two top bits of the first byte. */
  function AnnouncedLength(first: byte): (n: nat)
    ensures n == 1 || n == 2 || n == 4 || n == 8
  {
    if first < 64 then 1 else if first < 128 then 2 else if first < 192 then 4 else 8
  }

  function Zeros(k: nat): (z: Bytes)
    ensures |z| == k
  {
    seq(k, i => 0)
  }

  /** The parser left-aligns the bytes in an 8-byte buffer and shifts the value down. */
  function BeVarInt(input: Bytes): (r: Parsed<varint>) {
    var (remain, first) :- BeU8(input);
    var len := AnnouncedLength(first);
    if |remain| + 1 < len then Incomplete else
    var masked := [first % 64] + remain[..len - 1];
    ShiftedBuffer(masked, 8 - len);
    MaskedBound(masked);
    Ok(remain[len - 1..], ShiftDown(FromBE(masked + Zeros(8 - len)), 8 - len))
  }

  /** A right shift by `k` bytes. */
  function ShiftDown(v: nat, k: nat): nat {
    if k == 0 then v else ShiftDown(v / 256, k - 1)
  }

  lemma {:induction false} ShiftedBuffer(b: Bytes, k: nat)
    ensures ShiftDown(FromBE(b + Zeros(k)), k) == FromBE(b)
  {
    if k == 0 {
      assert b + Zeros(0) == b;
    } else {
      ShiftedBuffer(b, k - 1);
      assert (b + Zeros(k))[..|b| + k - 1] == b + Zeros(k - 1);
    }
  }

  lemma {:induction false} TopByte(b: Bytes)
    requires b != [] && b[0] < 64
    ensures FromBE(b) * 4 < Pow256(|b|)
  {
    if |b| == 1 {
      assert FromBE(b[..0]) == 0;
    } else {
      TopByte(b[..|b| - 1]);
    }
  }

  lemma MaskedBound(b: Bytes)
    requires 1 <= |b| <= 8 && b[0] < 64
    ensures FromBE(b) <= VARINT_MAX
  {
    TopByte(b);
    Pow256Monotone(|b|, 8);
    Pow256Values();
  }

  lemma {:induction false} Pow256Monotone(i: nat, j: nat)
    requires i <= j
    ensures Pow256(i) <= Pow256(j)
    decreases j
  {
    if i < j {
      Pow256Monotone(i, j - 1);
    }
  }

  /** The value a successful parse returns, with its announced length. */
  lemma BeVarIntValue(input: Bytes)
    ensures BeVarInt(input).Ok? <==> input != [] && AnnouncedLength(input[0]) <= |input|
    ensures BeVarInt(input).Ok? ==>
              var len := AnnouncedLength(input[0]);
              && BeVarInt(input).rest == input[len..]
              && BeVarInt(input).value == FromBE([input[0] % 64] + input[1..len])
  {
    if input != [] && AnnouncedLength(input[0]) <= |input| {
      var len := AnnouncedLength(input[0]);
      assert input[1..][..len - 1] == input[1..len];
      ShiftedBuffer([input[0] % 64] + input[1..len], 8 - len);
    }
  }

  /** The weight of the first byte. */
  lemma {:induction false} FirstByteWeight(a: byte, t: Bytes)
    ensures FromBE([a] + t) == a * Pow256(|t|) + FromBE(t)
  {
    if t == [] {
      assert [a] + t == [a] && FromBE([a][..0]) == 0;
    } else {
      var i := t[..|t| - 1];
      FirstByteWeight(a, i);
      assert ([a] + t)[..|t|] == [a] + i;
      assert a * Pow256(|i|) * 256 == a * Pow256(|t|);
    }
  }

  lemma TagOf(tag: nat, x: nat, a: byte, tail: nat, p: nat)
    requires p in {1, 0x100, 0x100_0000, 0x100_0000_0000_0000}
    requires tag < 4 && x < 64 * p && tail < p
    requires tag * 64 * p + x == a * p + tail
    ensures a / 64 == tag && (a % 64) * p + tail == x
  {
    if p == 1 {
    } else if p == 0x100 {
    } else if p == 0x100_0000 {
    } else {
      assert p == 0x100_0000_0000_0000;
    }
  }

  lemma ReadMasked(w: Bytes, rest: Bytes)
    requires w != [] && AnnouncedLength(w[0]) == |w|
    ensures BeVarInt(w + rest) == Ok(rest, FromBE([w[0] % 64] + w[1..]))
  {
    var input := w + rest;
    BeVarIntValue(input);
    assert input[1..|w|] == w[1..] && input[|w|..] == rest;
  }

  /** The tag of a written varint sits in the top two bits of its first byte. */
  lemma TaggedBytes(tag: nat, x: nat, k: nat, n: nat, p: nat)
    requires k > 0 && p == Pow256(k - 1) && p in {1, 0x100, 0x100_0000, 0x100_0000_0000_0000}
    requires tag < 4 && x < 64 * p && n == tag * 64 * p + x < Pow256(k)
    ensures BE(n, k)[0] / 64 == tag && FromBE([BE(n, k)[0] % 64] + BE(n, k)[1..]) == x
  {
    var w := BE(n, k);
    var a, t := w[0], w[1..];
    assert w == [a] + t;
    FromBEOfBE(n, k);
    FirstByteWeight(a, t);
    FirstByteWeight(a % 64, t);
    FromBEBound(t);
    TagOf(tag, x, a, FromBE(t), p);
  }

  const LENGTHS := {1, 2, 4, 8}

  /** The two-bit tag that announces a length. */
  function TagFor(len: nat): nat
    requires len in LENGTHS
  {
    if len == 1 then 0 else if len == 2 then 1 else if len == 4 then 2 else 3
  }

  /** `x` in `len` bytes, whether or not fewer would do. */
  function EncodeAs(x: varint, len: nat): Bytes
    requires len in LENGTHS
  {
    BE(TagFor(len) * 64 * Pow256(len - 1) + x, len)
  }

  lemma SmallPowers()
    ensures Pow256(0) == 1 && Pow256(1) == 0x100 && Pow256(3) == 0x100_0000 && Pow256(7) == 0x100_0000_0000_0000
    ensures Pow256(2) == 0x1_0000 && Pow256(4) == 0x1_0000_0000 && Pow256(8) == 0x1_0000_0000_0000_0000
  {
    Pow256Values();
  }

  /** The writer uses the shortest length. */
  lemma EncodeIsShortest(x: varint)
    ensures EncodingSize(x) in LENGTHS && Encode(x) == EncodeAs(x, EncodingSize(x))
    ensures forall len :: len in LENGTHS ==> (len >= EncodingSize(x) <==> x < 64 * Pow256(len - 1))
  {
    hide BE, Pow256;
    SmallPowers();
  }

  /** A value is read back from every length that holds it, whatever follows. */
  lemma EveryLengthReads(x: varint, len: nat, rest: Bytes)
    requires len in LENGTHS && len >= EncodingSize(x)
    ensures BeVarInt(EncodeAs(x, len) + rest) == Ok(rest, x)
  {
    hide BE, Pow256, BeVarInt, FromBE;
    SmallPowers();
    EncodeIsShortest(x);
    var p, tag := Pow256(len - 1), TagFor(len);
    TaggedBytes(tag, x, len, tag * 64 * p + x, p);
    ReadMasked(EncodeAs(x, len), rest);
  }

  /** The value of an announced word, with and without its tag. */
  lemma WordValue(w: Bytes, len: nat, p: nat)
    requires len in LENGTHS && |w| == len && AnnouncedLength(w[0]) == len && p == Pow256(len - 1)
    ensures var x := FromBE([w[0] % 64] + w[1..]);
            x < 64 * p && FromBE(w) == TagFor(len) * 64 * p + x
  {
    hide Pow256, FromBE;
    SmallPowers();
    var a, t := w[0], w[1..];
    assert w == [a] + t && |t| == len - 1;
    FirstByteWeight(a, t);
    FirstByteWeight(a % 64, t);
    FromBEBound(t);
    TopWeight(a, FromBE(t), TagFor(len), p);
  }

  /** And from nothing else: what a successful parse consumed is the value in that length. */
  lemma OnlyLengthsRead(input: Bytes)
    requires BeVarInt(input).Ok?
    ensures var x, len := BeVarInt(input).value, |input| - |BeVarInt(input).rest|;
            && len in LENGTHS && len >= EncodingSize(x)
            && input == EncodeAs(x, len) + BeVarInt(input).rest
  {
    hide BE, Pow256, BeVarInt, FromBE, TagFor, EncodingSize;
    BeVarIntValue(input);
    var x, len := BeVarInt(input).value, AnnouncedLength(input[0]);
    var w := input[..len];
    assert w[1..] == input[1..len];
    WordValue(w, len, Pow256(len - 1));
    BEOfFromBE(w);
    EncodeIsShortest(x);
    assert input == w + input[len..];
  }

  lemma TopWeight(a: byte, tail: nat, tag: nat, p: nat)
    requires p in {1, 0x100, 0x100_0000, 0x100_0000_0000_0000} && tail < p && tag == a / 64
    ensures a * p + tail == tag * 64 * p + ((a % 64) * p + tail)
    ensures (a % 64) * p + tail < 64 * p
  {
    if p == 1 {
    } else if p == 0x100 {
    } else if p == 0x100_0000 {
    } else {
      assert p == 0x100_0000_0000_0000;
    }
  }

  /** Reading back a written varint yields it, whatever follows. */
  lemma RoundTrip(x: varint, rest: Bytes)
    ensures BeVarInt(Encode(x) + rest) == Ok(rest, x)
    ensures |Encode(x)| == EncodingSize(x)
  {
    EncodeIsShortest(x);
    EveryLengthReads(x, EncodingSize(x), rest);
  }
}
