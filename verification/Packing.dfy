/** Packing of single-bit values into bytes, least significant bit first, as sections 6.1
    and 6.11 of the MODBUS Application Protocol Specification V1.1b3 fix it. */
module Packing {
  import opened Bytes

  function ByteCount(n: nat): nat { (n + 7) / 8 }

  /** The number whose k-th binary digit is bits[k]. */
  function FromBits(bits: seq<bool>): nat
  {
    if bits == [] then 0 else (if bits[0] then 1 else 0) + 2 * FromBits(bits[1..])
  }

  lemma {:induction false} BitOfFromBits(bits: seq<bool>, j: nat)
    ensures Bit(FromBits(bits), j) <==> j < |bits| && bits[j]
  {
    if bits == [] {
      ZeroHasNoBits(j);
    } else if j > 0 {
      BitOfFromBits(bits[1..], j - 1);
    }
  }

  lemma {:induction false} ZeroHasNoBits(j: nat)
    ensures !Bit(0, j)
  {
    if j > 0 {
      ZeroHasNoBits(j - 1);
    }
  }

  lemma {:induction false} FromBitsFits(bits: seq<bool>)
    ensures FromBits(bits) < Pow2(|bits|)
  {
    if bits != [] {
      FromBitsFits(bits[1..]);
    }
  }

  /** The bits that share byte k; the last byte may hold fewer than eight. */
  function ByteBits(bits: seq<bool>, k: nat): (b: seq<bool>)
    requires k < ByteCount(|bits|)
    ensures |b| <= 8
  {
    if 8 * k + 8 <= |bits| then bits[8 * k..8 * k + 8] else bits[8 * k..]
  }

  function PackedByte(bits: seq<bool>, k: nat): byte
    requires k < ByteCount(|bits|)
  {
    FromBitsFits(ByteBits(bits, k));
    Pow2Monotone(|ByteBits(bits, k)|, 8);
    Pow2Of8();
    FromBits(ByteBits(bits, k))
  }

  function Pack(bits: seq<bool>): (bytes: seq<byte>)
    ensures |bytes| == ByteCount(|bits|)
  {
    seq(ByteCount(|bits|), k requires 0 <= k < ByteCount(|bits|) => PackedByte(bits, k))
  }

  function Unpack(bytes: seq<byte>, n: nat): (bits: seq<bool>)
    requires ByteCount(n) <= |bytes|
    ensures |bits| == n
  {
    seq(n, i requires 0 <= i < n => Bit(bytes[i / 8], i % 8))
  }

  /** Bit j of byte k of `bytes` is bits[8k + j] for the first i bits and clear beyond. */
  ghost predicate PackedUpTo(bytes: seq<byte>, bits: seq<bool>, i: nat)
    requires i <= |bits|
  {
    && |bytes| == ByteCount(|bits|)
    && forall k: nat, j: nat | k < |bytes| && j < 8 :: Bit(bytes[k], j) <==> 8 * k + j < i && bits[8 * k + j]
  }

  lemma PackIsPacked(bits: seq<bool>)
    ensures PackedUpTo(Pack(bits), bits, |bits|)
  {
    forall k: nat, j: nat | k < ByteCount(|bits|) && j < 8
      ensures Bit(Pack(bits)[k], j) <==> 8 * k + j < |bits| && bits[8 * k + j]
    {
      BitOfFromBits(ByteBits(bits, k), j);
    }
  }

  lemma PackIsUnique(bytes: seq<byte>, bits: seq<bool>)
    requires PackedUpTo(bytes, bits, |bits|)
    ensures bytes == Pack(bits)
  {
    PackIsPacked(bits);
    forall k | 0 <= k < |bytes| ensures bytes[k] == Pack(bits)[k] {
      forall j: nat | j < 8 ensures Bit(bytes[k], j) == Bit(Pack(bits)[k], j) {}
      SameByte(bytes[k], Pack(bits)[k]);
    }
  }

  lemma NothingPacked(bytes: seq<byte>, bits: seq<bool>)
    requires |bytes| == ByteCount(|bits|) && forall k | 0 <= k < |bytes| :: bytes[k] == 0
    ensures PackedUpTo(bytes, bits, 0)
  {
    forall k: nat, j: nat | k < |bytes| && j < 8 ensures !Bit(bytes[k], j) {
      ZeroHasNoBits(j);
    }
  }

  /** One turn of the `out[i/8] |= 1 << (i%8)` loops of both the client and the server. */
  lemma PackOneMore(bytes: seq<byte>, bits: seq<bool>, i: nat, next: seq<byte>)
    requires i < |bits| && PackedUpTo(bytes, bits, i)
    requires |next| == |bytes|
    requires forall k | 0 <= k < |bytes| ::
               next[k] == if bits[i] && k == i / 8 then WithBit(bytes[k], i % 8) else bytes[k]
    ensures PackedUpTo(next, bits, i + 1)
  {
    forall k: nat, j: nat | k < |bytes| && j < 8
      ensures Bit(next[k], j) <==> 8 * k + j < i + 1 && bits[8 * k + j]
    {
      var q, r := i / 8, i % 8;
      assert i == 8 * q + r && r < 8;
      assert Bit(bytes[k], j) <==> 8 * k + j < i && bits[8 * k + j];
      if k == q {
        WithBitSets(bytes[k], r, j);
      }
    }
  }

  lemma UnpackPack(bits: seq<bool>)
    ensures Unpack(Pack(bits), |bits|) == bits
  {
    PackIsPacked(bits);
    forall i | 0 <= i < |bits| ensures Unpack(Pack(bits), |bits|)[i] == bits[i] {
      assert Bit(Pack(bits)[i / 8], i % 8) <==> 8 * (i / 8) + i % 8 < |bits| && bits[8 * (i / 8) + i % 8];
    }
  }

  ghost predicate PaddingClear(bytes: seq<byte>, n: nat)
    requires |bytes| == ByteCount(n)
  {
    forall k: nat, j: nat | k < |bytes| && j < 8 && n <= 8 * k + j :: !Bit(bytes[k], j)
  }

  lemma PackUnpack(bytes: seq<byte>, n: nat)
    requires |bytes| == ByteCount(n)
    ensures Pack(Unpack(bytes, n)) == bytes <==> PaddingClear(bytes, n)
  {
    var bits := Unpack(bytes, n);
    PackIsPacked(bits);
    if PaddingClear(bytes, n) {
      forall k: nat, j: nat | k < |bytes| && j < 8
        ensures Bit(bytes[k], j) <==> 8 * k + j < n && bits[8 * k + j]
      {
        assert (8 * k + j) / 8 == k && (8 * k + j) % 8 == j;
      }
      PackIsUnique(bytes, bits);
    }
  }
}
