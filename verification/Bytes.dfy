/** Bytes, 16-bit words, and the bit and byte order Modbus fixes on the wire.
    A byte is an integer below 256, so that `|= 1 << k` and `& (1 << k)` are stated
    arithmetically; `BitIsMask` and `WithBitIsOr` tie them to the bit-vector operators. */
module Bytes {
  type byte = x: int | 0 <= x < 0x100
  type uint16 = x: int | 0 <= x < 0x1_0000

  // ---- Big-endian words ----

  function Hi(v: uint16): byte { v / 256 }

  function Lo(v: uint16): byte { v % 256 }

  function U16(hi: byte, lo: byte): uint16 { 256 * hi + lo }

  function U16At(s: seq<byte>, i: nat): uint16
    requires i + 2 <= |s|
  {
    256 * s[i] as int + s[i + 1] as int
  }

  lemma WordRoundTrip(v: uint16, hi: byte, lo: byte)
    ensures U16(Hi(v), Lo(v)) == v
    ensures Hi(U16(hi, lo)) == hi && Lo(U16(hi, lo)) == lo
  {
  }

  /** The two bytes of a word, as binary.BigEndian.PutUint16 stores them. */
  function WordBytes(v: uint16): seq<byte> { [Hi(v), Lo(v)] }

  lemma WordOf(hi: byte, lo: byte)
    ensures WordBytes(U16(hi, lo)) == [hi, lo]
  {
    hide Hi, Lo;
    WordRoundTrip(0, hi, lo);
  }

  lemma WordAt(s: seq<byte>, i: nat)
    requires i + 2 <= |s|
    ensures WordBytes(U16At(s, i)) == s[i..i + 2]
  {
    hide Hi, Lo;
    var hi, lo := s[i], s[i + 1];
    WordOf(hi, lo);
    assert s[i..i + 2] == [hi, lo];
  }

  lemma WordInside(v: uint16, before: seq<byte>, after: seq<byte>)
    ensures U16At(before + WordBytes(v) + after, |before|) == v
  {
    hide Hi, Lo;
    WordRoundTrip(v, 0, 0);
  }

  method PutUint16(a: array<byte>, at: nat, v: uint16)
    requires at + 2 <= a.Length
    modifies a
    ensures a[at] == Hi(v) && a[at + 1] == Lo(v)
    ensures forall k | 0 <= k < a.Length && k != at && k != at + 1 :: a[k] == old(a[k])
  {
    a[at] := Hi(v);
    a[at + 1] := Lo(v);
  }

  /** A register block on the wire: high byte first, registers in order. */
  function RegisterBytes(regs: seq<uint16>): (bytes: seq<byte>)
    ensures |bytes| == 2 * |regs|
  {
    seq(2 * |regs|, i requires 0 <= i < 2 * |regs| => if i % 2 == 0 then Hi(regs[i / 2]) else Lo(regs[i / 2]))
  }

  function RegistersOf(bytes: seq<byte>, n: nat): (regs: seq<uint16>)
    requires 2 * n <= |bytes|
    ensures |regs| == n
  {
    seq(n, i requires 0 <= i < n => U16At(bytes, 2 * i))
  }

  /** The first i registers of `regs` lie in `bytes`, high byte first. */
  ghost predicate StoredUpTo(bytes: seq<byte>, regs: seq<uint16>, i: nat)
    requires i <= |regs|
  {
    && |bytes| == 2 * |regs|
    && forall k | 0 <= k < i :: bytes[2 * k] == Hi(regs[k]) && bytes[2 * k + 1] == Lo(regs[k])
  }

  /** One turn of the PutUint16 loops of both the client and the server. */
  lemma StoreOneMore(bytes: seq<byte>, regs: seq<uint16>, i: nat, next: seq<byte>)
    requires i < |regs| && StoredUpTo(bytes, regs, i) && |next| == |bytes|
    requires next[2 * i] == Hi(regs[i]) && next[2 * i + 1] == Lo(regs[i])
    requires forall k | 0 <= k < 2 * i :: next[k] == bytes[k]
    ensures StoredUpTo(next, regs, i + 1)
  {
  }

  lemma NothingStored(bytes: seq<byte>, regs: seq<uint16>)
    requires |bytes| == 2 * |regs|
    ensures StoredUpTo(bytes, regs, 0)
  {
  }

  lemma StoredIsRegisterBytes(bytes: seq<byte>, regs: seq<uint16>)
    requires StoredUpTo(bytes, regs, |regs|)
    ensures bytes == RegisterBytes(regs)
  {
    forall k | 0 <= k < |bytes| ensures bytes[k] == RegisterBytes(regs)[k] {
      assert k == 2 * (k / 2) + k % 2;
      assert bytes[2 * (k / 2)] == Hi(regs[k / 2]) && bytes[2 * (k / 2) + 1] == Lo(regs[k / 2]);
    }
  }

  lemma RegisterRoundTrip(regs: seq<uint16>)
    ensures RegistersOf(RegisterBytes(regs), |regs|) == regs
  {
    forall i | 0 <= i < |regs| ensures U16At(RegisterBytes(regs), 2 * i) == regs[i] {
      assert (2 * i + 1) / 2 == i;
      WordRoundTrip(regs[i], 0, 0);
    }
  }

  /** And back: an even number of bytes is the block of the registers read from it. */
  lemma BytesRoundTrip(bytes: seq<byte>, n: nat)
    requires |bytes| == 2 * n
    ensures RegisterBytes(RegistersOf(bytes, n)) == bytes
  {
    hide Hi, Lo, RegisterBytes;
    var regs := RegistersOf(bytes, n);
    forall k | 0 <= k < n ensures bytes[2 * k] == Hi(regs[k]) && bytes[2 * k + 1] == Lo(regs[k]) {
      WordRoundTrip(0, bytes[2 * k], bytes[2 * k + 1]);
    }
    StoredIsRegisterBytes(bytes, regs);
  }

  // ---- Bits, least significant first ----

  /** `b & (1 << k) != 0` */
  predicate Bit(b: nat, k: nat)
    decreases k
  {
    if k == 0 then b % 2 == 1 else Bit(b / 2, k - 1)
  }

  /** `b | 1 << k` */
  function WithBit(b: nat, k: nat): nat
    decreases k
  {
    if k == 0 then b - b % 2 + 1 else 2 * WithBit(b / 2, k - 1) + b % 2
  }

  function Pow2(n: nat): nat { if n == 0 then 1 else 2 * Pow2(n - 1) }

  lemma {:induction false} Pow2Monotone(m: nat, n: nat)
    requires m <= n
    ensures 1 <= Pow2(m) <= Pow2(n)
  {
    if n > 0 {
      Pow2Monotone(if m > 0 then m - 1 else 0, n - 1);
    }
  }

  lemma {:induction false} WithBitSets(b: nat, k: nat, j: nat)
    ensures Bit(WithBit(b, k), j) <==> j == k || Bit(b, j)
    decreases k
  {
    if k > 0 && j > 0 {
      WithBitSets(b / 2, k - 1, j - 1);
    }
  }

  lemma {:induction false} WithBitFits(b: nat, k: nat, n: nat)
    requires b < Pow2(n) && k < n
    ensures WithBit(b, k) < Pow2(n)
  {
    HalfBelow(b, Pow2(n - 1));
    if k > 0 {
      WithBitFits(b / 2, k - 1, n - 1);
    }
  }

  lemma HalfBelow(b: nat, p: nat)
    requires b < 2 * p
    ensures b / 2 < p && b - b % 2 + 1 < 2 * p
  {
  }

  lemma {:induction false} WithBitAdds(b: nat, k: nat)
    ensures WithBit(b, k) == if Bit(b, k) then b else b + Pow2(k)
    decreases k
  {
    if k > 0 {
      WithBitAdds(b / 2, k - 1);
    }
  }

  lemma WithBitIsByte(b: byte, k: nat)
    requires k < 8
    ensures WithBit(b, k) < 256
  {
    Pow2Of8();
    WithBitFits(b, k, 8);
  }

  lemma Pow2Of8()
    ensures Pow2(7) == 128 && Pow2(8) == 256
  {
    assert Pow2(2) == 4 && Pow2(4) == 16 && Pow2(6) == 64;
  }

  lemma {:induction false} SameBits(a: nat, b: nat, n: nat)
    requires a < Pow2(n) && b < Pow2(n)
    requires forall j: nat | j < n :: Bit(a, j) == Bit(b, j)
    ensures a == b
  {
    if n > 0 {
      assert Bit(a, 0) == Bit(b, 0);
      forall j: nat | j < n - 1 ensures Bit(a / 2, j) == Bit(b / 2, j) {
        assert Bit(a, j + 1) == Bit(b, j + 1);
      }
      SameBits(a / 2, b / 2, n - 1);
    }
  }

  lemma SameByte(a: byte, b: byte)
    requires forall j: nat | j < 8 :: Bit(a, j) == Bit(b, j)
    ensures a == b
  {
    Pow2Of8();
    SameBits(a, b, 8);
  }

  lemma HalfIsShift(x: bv8)
    ensures (x as int) / 2 == (x >> 1) as int
    ensures (x as int) % 2 == (x & 1) as int
  {
  }

  /** `1 << k` */
  function Mask(k: nat): bv8
  {
    if k == 0 then 1 else Mask(k - 1) << 1
  }

  lemma MaskStep(x: bv8, m: bv8)
    requires m != 0 && m & (m - 1) == 0 && m << 1 != 0
    ensures (x >> 1) & m != 0 <==> x & (m << 1) != 0
    ensures (x | (m << 1)) >> 1 == (x >> 1) | m
    ensures (x | (m << 1)) & 1 == x & 1
  {
  }

  lemma MaskIsPowerOfTwo(k: nat)
    requires k < 8
    ensures Mask(k) != 0 && Mask(k) & (Mask(k) - 1) == 0
    ensures k < 7 ==> Mask(k) << 1 != 0
  {
    assert Mask(1) == 2;
    assert Mask(2) == 4;
    assert Mask(3) == 8;
    assert Mask(4) == 16;
    assert Mask(5) == 32;
    assert Mask(6) == 64;
    assert Mask(7) == 128;
  }

  lemma LowestBit(x: bv8)
    ensures x & 1 == 0 || x & 1 == 1
    ensures (x | 1) >> 1 == x >> 1 && (x | 1) & 1 == 1
  {
  }

  lemma {:induction false} BitIsMask(x: bv8, k: nat)
    requires k < 8
    ensures Bit(x as int, k) <==> x & Mask(k) != 0
  {
    HalfIsShift(x);
    if k == 0 {
      LowestBit(x);
    } else {
      MaskIsPowerOfTwo(k - 1);
      MaskIsPowerOfTwo(k);
      MaskStep(x, Mask(k - 1));
      BitIsMask(x >> 1, k - 1);
    }
  }

  lemma SplitByte(x: bv8, half: bv8, low: bv8)
    requires half == x >> 1 && low == x & 1
    ensures x as int == 2 * (half as int) + low as int
  {
    HalfIsShift(x);
  }

  lemma OrStep(x: bv8, y: bv8, k: nat)
    requires 0 < k < 8 && y == x | Mask(k)
    ensures y >> 1 == (x >> 1) | Mask(k - 1) && y & 1 == x & 1
  {
    MaskIsPowerOfTwo(k - 1);
    MaskIsPowerOfTwo(k);
    MaskStep(x, Mask(k - 1));
  }

  lemma {:induction false} WithBitIsOr(x: bv8, y: bv8, k: nat)
    requires k < 8 && y == x | Mask(k)
    ensures WithBit(x as int, k) == y as int
  {
    SplitByte(y, y >> 1, y & 1);
    HalfIsShift(x);
    if k == 0 {
      SplitByte(x, x >> 1, x & 1);
      LowestBit(x);
    } else {
      hide Mask;
      OrStep(x, y, k);
      WithBitIsOr(x >> 1, y >> 1, k - 1);
    }
  }
}
