/** Bytes, big-endian integers and the results of the streaming parsers. */
module Bytes {

  type byte = b: int | 0 <= b < 256
  type Bytes = seq<byte>
  type u16 = n: nat | n < 0x1_0000
  type u32 = n: nat | n < 0x1_0000_0000

  datatype Option<+T> = None | Some(value: T)

  /** What a streaming parser returns: the rest of the input with a value, a request for
      more input, a recoverable error with the slice it points at, or a fatal failure. */
  datatype Parsed<+T> =
    | Ok(rest: Bytes, value: T)
    | Incomplete
    | Error(at: Bytes)
    | Failure(at: Bytes)
  {
    predicate IsFailure() {
      !Ok?
    }

    function PropagateFailure<U>(): Parsed<U>
      requires IsFailure()
    {
      match this
      case Incomplete => Incomplete
      case Error(at) => Error(at)
      case Failure(at) => Failure(at)
    }

    function Extract(): (Bytes, T)
      requires Ok?
    {
      (rest, value)
    }
  }

  /** The `k` low-order bytes of `n`, most significant first. */
  function BE(n: nat, k: nat): (r: Bytes)
    ensures |r| == k
  {
    if k == 0 then [] else BE(n / 256, k - 1) + [n % 256]
  }

  function FromBE(b: Bytes): nat {
    if b == [] then 0 else FromBE(b[..|b| - 1]) * 256 + b[|b| - 1]
  }

  function Pow256(k: nat): nat {
    if k == 0 then 1 else 256 * Pow256(k - 1)
  }

  lemma {:induction false} FromBEOfBE(n: nat, k: nat)
    requires n < Pow256(k)
    ensures FromBE(BE(n, k)) == n
  {
    if k > 0 {
      FromBEOfBE(n / 256, k - 1);
      assert BE(n, k)[..k - 1] == BE(n / 256, k - 1);
    }
  }

  lemma {:induction false} FromBEBound(b: Bytes)
    ensures FromBE(b) < Pow256(|b|)
  {
    if b != [] {
      FromBEBound(b[..|b| - 1]);
    }
  }

  lemma {:induction false} BEOfFromBE(b: Bytes)
    ensures BE(FromBE(b), |b|) == b
  {
    if b != [] {
      BEOfFromBE(b[..|b| - 1]);
      assert FromBE(b) / 256 == FromBE(b[..|b| - 1]);
    }
  }

  lemma Pow256Values()
    ensures Pow256(1) == 0x100 && Pow256(2) == 0x1_0000 && Pow256(4) == 0x1_0000_0000
    ensures Pow256(8) == 0x1_0000_0000_0000_0000
  {
    assert Pow256(3) == 0x100_0000;
    assert Pow256(4) == 0x1_0000_0000;
    assert Pow256(6) == 0x1_0000_0000_0000;
  }

  function Take(input: Bytes, n: nat): Parsed<Bytes> {
    if |input| < n then Incomplete else Ok(input[n..], input[..n])
  }

  function BeUint(input: Bytes, k: nat): (r: Parsed<nat>)
    ensures r.Ok? ==> |input| >= k && r.rest == input[k..] && r.value < Pow256(k)
  {
    if |input| < k then Incomplete else
    FromBEBound(input[..k]);
    Ok(input[k..], FromBE(input[..k]))
  }

  function BeU8(input: Bytes): (r: Parsed<byte>) {
    if input == [] then Incomplete else Ok(input[1..], input[0])
  }

  function BeU16(input: Bytes): Parsed<u16> {
    Pow256Values();
    var (rest, n) :- BeUint(input, 2);
    Ok(rest, n)
  }

  function BeU32(input: Bytes): Parsed<u32> {
    Pow256Values();
    var (rest, n) :- BeUint(input, 4);
    Ok(rest, n)
  }

  lemma TakePrefix(b: Bytes, rest: Bytes)
    ensures Take(b + rest, |b|) == Ok(rest, b)
  {
    assert (b + rest)[|b|..] == rest && (b + rest)[..|b|] == b;
  }

  lemma ReadUint(n: nat, k: nat, rest: Bytes)
    requires n < Pow256(k)
    ensures BeUint(BE(n, k) + rest, k) == Ok(rest, n)
  {
    FromBEOfBE(n, k);
    TakePrefix(BE(n, k), rest);
  }

  lemma ReadU16(n: u16, rest: Bytes)
    ensures BeU16(BE(n, 2) + rest) == Ok(rest, n)
  {
    Pow256Values();
    ReadUint(n, 2, rest);
  }

  lemma ReadU32(n: u32, rest: Bytes)
    ensures BeU32(BE(n, 4) + rest) == Ok(rest, n)
  {
    Pow256Values();
    ReadUint(n, 4, rest);
  }
}
