/** Bytes as strings of bits, most significant bit first. */
module Bits {

  type byte = bv8

  function ByteMask(k: int): byte {
    if k == 0 then 0x80 else if k == 1 then 0x40 else if k == 2 then 0x20 else if k == 3 then 0x10 else
    if k == 4 then 0x08 else if k == 5 then 0x04 else if k == 6 then 0x02 else 0x01
  }

  predicate BitAt(b: byte, k: int) {
    b & ByteMask(k) != 0
  }

  /** The eight bits of a byte. */
  function ByteBits(b: byte): (r: seq<bool>)
    ensures |r| == 8
  {
    seq(8, k => BitAt(b, k))
  }

  function Weight(on: bool, weight: byte): byte {
    if on then weight else 0
  }

  /** The byte with the given eight bits. */
  function ByteOf(s: seq<bool>): byte
    requires |s| == 8
  {
    Weight(s[0], 0x80) | Weight(s[1], 0x40) | Weight(s[2], 0x20) | Weight(s[3], 0x10) |
    Weight(s[4], 0x08) | Weight(s[5], 0x04) | Weight(s[6], 0x02) | Weight(s[7], 0x01)
  }

  /** The bits of a string of bytes. */
  function BitsOf(data: seq<byte>): (r: seq<bool>)
    ensures |r| == 8 * |data|
  {
    seq(8 * |data|, k requires 0 <= k < 8 * |data| => ByteBits(data[k / 8])[k % 8])
  }

  /** The whole bytes in a string of bits; what is left over is dropped. */
  function BytesOf(bits: seq<bool>): (r: seq<byte>)
    ensures |r| == |bits| / 8
  {
    seq(|bits| / 8, i requires 0 <= i < |bits| / 8 => ByteOf(bits[8 * i..8 * i + 8]))
  }

  lemma SameBits(a: byte, b: byte)
    requires forall k :: 0 <= k < 8 ==> BitAt(a, k) == BitAt(b, k)
    ensures a == b
  {
    assert BitAt(a, 0) == BitAt(b, 0) && BitAt(a, 1) == BitAt(b, 1) && BitAt(a, 2) == BitAt(b, 2);
    assert BitAt(a, 3) == BitAt(b, 3);
    assert BitAt(a, 4) == BitAt(b, 4) && BitAt(a, 5) == BitAt(b, 5) && BitAt(a, 6) == BitAt(b, 6);
    assert BitAt(a, 7) == BitAt(b, 7);
  }

  lemma EightBits(b0: bool, b1: bool, b2: bool, b3: bool, b4: bool, b5: bool, b6: bool, b7: bool, b: byte)
    requires b == Weight(b0, 0x80) | Weight(b1, 0x40) | Weight(b2, 0x20) | Weight(b3, 0x10) |
                  Weight(b4, 0x08) | Weight(b5, 0x04) | Weight(b6, 0x02) | Weight(b7, 0x01)
    ensures (b & 0x80 != 0) == b0 && (b & 0x40 != 0) == b1 && (b & 0x20 != 0) == b2 && (b & 0x10 != 0) == b3
    ensures (b & 0x08 != 0) == b4 && (b & 0x04 != 0) == b5 && (b & 0x02 != 0) == b6 && (b & 0x01 != 0) == b7
  {
  }

  lemma EightOf<T>(r: seq<T>, a: T, b: T, c: T, d: T, e: T, f: T, g: T, h: T)
    requires |r| == 8 && r[0] == a && r[1] == b && r[2] == c && r[3] == d && r[4] == e && r[5] == f && r[6] == g
    requires r[7] == h
    ensures r == [a, b, c, d, e, f, g, h]
  {
  }

  lemma ByteBitsOfByteOf(s: seq<bool>)
    requires |s| == 8
    ensures ByteBits(ByteOf(s)) == s
  {
    var b := ByteOf(s);
    EightBits(s[0], s[1], s[2], s[3], s[4], s[5], s[6], s[7], b);
    forall k | 0 <= k < 8 ensures BitAt(b, k) == s[k] {
      if k == 0 {} else if k == 1 {} else if k == 2 {} else if k == 3 {}
      else if k == 4 {} else if k == 5 {} else if k == 6 {} else { assert k == 7; }
    }
  }

  lemma ByteOfByteBits(b: byte)
    ensures ByteOf(ByteBits(b)) == b
  {
    var c := ByteOf(ByteBits(b));
    ByteBitsOfByteOf(ByteBits(b));
    forall k | 0 <= k < 8 ensures BitAt(c, k) == BitAt(b, k) {
      assert ByteBits(c)[k] == ByteBits(b)[k];
    }
    SameBits(c, b);
  }

  /** Exclusive or, bit by bit. */
  function Xor(a: seq<bool>, b: seq<bool>): (r: seq<bool>)
    requires |a| == |b|
    ensures |r| == |a|
  {
    seq(|a|, i requires 0 <= i < |a| => a[i] != b[i])
  }

  function Zeros(n: nat): (r: seq<bool>)
    ensures |r| == n
  {
    seq(n, _ => false)
  }

  lemma XorMasks(a: byte, b: byte, m: byte)
    requires m == 0x80 || m == 0x40 || m == 0x20 || m == 0x10 || m == 0x08 || m == 0x04 || m == 0x02 || m == 0x01
    ensures ((a ^ b) & m != 0) == ((a & m != 0) != (b & m != 0))
  {
  }

  lemma ByteBitsXor(a: byte, b: byte)
    ensures ByteBits(a ^ b) == Xor(ByteBits(a), ByteBits(b))
  {
    forall k | 0 <= k < 8 ensures BitAt(a ^ b, k) == (BitAt(a, k) != BitAt(b, k)) {
      XorMasks(a, b, ByteMask(k));
    }
  }

  /** The bits of one byte among many. */
  lemma BitsOfByte(data: seq<byte>, i: int)
    requires 0 <= i < |data|
    ensures BitsOf(data)[8 * i..8 * i + 8] == ByteBits(data[i])
  {
    forall k | 0 <= k < 8
      ensures BitsOf(data)[8 * i + k] == ByteBits(data[i])[k]
    {
      assert (8 * i + k) / 8 == i && (8 * i + k) % 8 == k;
    }
  }

  /** Bytes come back from their bits, whatever is left over behind them. */
  lemma BytesOfBits(data: seq<byte>, extra: seq<bool>)
    requires |extra| < 8
    ensures BytesOf(BitsOf(data) + extra) == data
  {
    var bits := BitsOf(data) + extra;
    forall i | 0 <= i < |data|
      ensures BytesOf(bits)[i] == data[i]
    {
      BitsOfByte(data, i);
      assert bits[8 * i..8 * i + 8] == BitsOf(data)[8 * i..8 * i + 8];
      ByteOfByteBits(data[i]);
    }
  }

  lemma BitOfBytes(bits: seq<bool>, k: int)
    requires 0 <= k < 8 * (|bits| / 8)
    ensures BitsOf(BytesOf(bits))[k] == bits[k]
  {
    var i := k / 8;
    var eight := bits[8 * i..8 * i + 8];
    assert BytesOf(bits)[i] == ByteOf(eight);
    ByteBitsOfByteOf(eight);
    assert eight[k % 8] == bits[k];
  }

  /** Bits come back from their bytes, up to the last whole byte. */
  lemma BitsOfBytes(bits: seq<bool>)
    ensures BitsOf(BytesOf(bits)) == bits[..8 * (|bits| / 8)]
  {
    forall k | 0 <= k < 8 * (|bits| / 8)
      ensures BitsOf(BytesOf(bits))[k] == bits[k]
    {
      BitOfBytes(bits, k);
    }
  }

  lemma BitsInjective(a: seq<byte>, b: seq<byte>)
    requires BitsOf(a) == BitsOf(b)
    ensures a == b
  {
    BytesOfBits(a, []);
    BytesOfBits(b, []);
    assert BitsOf(a) + [] == BitsOf(a);
  }

  lemma BitsOfConcat(a: seq<byte>, b: seq<byte>)
    ensures BitsOf(a + b) == BitsOf(a) + BitsOf(b)
  {
  }
}
