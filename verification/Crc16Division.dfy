/** The checksum of crc16/main.go as a remainder: polynomials with coefficients 0 and 1 are strings of bits, the highest
    power first, and their sum is exclusive or. */
module Crc16Division {
  import opened Bits
  import opened Crc16
  import opened Crc16Table

  /** The sixteen bits of a word. */
  function WordBits(c: word): (r: seq<bool>)
    ensures |r| == 16
  {
    ByteBits((c >> 8) as byte) + ByteBits((c & 0xff) as byte)
  }

  /** Coefficient of the generator x^16 + x^12 + x^5 + 1. */
  predicate Generator(j: int) {
    j == 0 || j == 4 || j == 11 || j == 16
  }

  /** The product of q and the generator, sixteen places longer than q. */
  function Times(q: seq<bool>): (r: seq<bool>)
    ensures |r| == |q| + 16
  {
    if q == [] then Zeros(16)
    else
      var rest := Times(q[1..]);
      seq(|q| + 16, j requires 0 <= j < |q| + 16 => (q[0] && Generator(j)) != (j > 0 && rest[j - 1]))
  }

  predicate OneBit(m: word) {
    || m == 0x8000 || m == 0x4000 || m == 0x2000 || m == 0x1000
    || m == 0x0800 || m == 0x0400 || m == 0x0200 || m == 0x0100
    || m == 0x0080 || m == 0x0040 || m == 0x0020 || m == 0x0010
    || m == 0x0008 || m == 0x0004 || m == 0x0002 || m == 0x0001
  }

  lemma StepMoves(c: word, on: bool, z: word, t: bool, m: word)
    requires z == BitStep(c, on) && t == ((c & 0x8000 != 0) != on) && OneBit(m)
    ensures (z & m != 0) == ((c & (m >> 1) != 0) != (t && (m == 0x1000 || m == 0x0020 || m == 0x0001)))
  {
  }

  /** Bit k of a word, by the mask that selects it. */
  function WordMask(k: int): word {
    if k == 0 then 0x8000 else if k == 1 then 0x4000 else if k == 2 then 0x2000 else if k == 3 then 0x1000 else
    if k == 4 then 0x0800 else if k == 5 then 0x0400 else if k == 6 then 0x0200 else if k == 7 then 0x0100 else
    if k == 8 then 0x0080 else if k == 9 then 0x0040 else if k == 10 then 0x0020 else if k == 11 then 0x0010 else
    if k == 12 then 0x0008 else if k == 13 then 0x0004 else if k == 14 then 0x0002 else 0x0001
  }

  lemma HighHalfBit(c: word, m: byte, n: word)
    requires n == (m as word) << 8
    ensures (((c >> 8) as byte) & m != 0) == (c & n != 0)
  {
  }

  lemma LowHalfBit(c: word, m: byte, n: word)
    requires n == m as word
    ensures (((c & 0xff) as byte) & m != 0) == (c & n != 0)
  {
  }

  lemma HighBit(c: word, k: int)
    requires 0 <= k < 8
    ensures BitAt((c >> 8) as byte, k) == (c & WordMask(k) != 0)
  {
    HighHalfBit(c, ByteMask(k), WordMask(k));
  }

  lemma LowBit(c: word, k: int)
    requires 8 <= k < 16
    ensures BitAt((c & 0xff) as byte, k - 8) == (c & WordMask(k) != 0)
  {
    LowHalfBit(c, ByteMask(k - 8), WordMask(k));
  }

  lemma BitOfHalf(high: seq<bool>, low: seq<bool>, k: int)
    requires |high| == |low| == 8 && 0 <= k < 16
    ensures (high + low)[k] == if k < 8 then high[k] else low[k - 8]
  {
  }

  lemma WordBitAt(c: word, k: int)
    requires 0 <= k < 16
    ensures WordBits(c)[k] == (c & WordMask(k) != 0)
  {
    BitOfHalf(ByteBits((c >> 8) as byte), ByteBits((c & 0xff) as byte), k);
    if k < 8 {
      HighBit(c, k);
    } else {
      LowBit(c, k);
    }
  }

  lemma Masks(k: int)
    requires 0 <= k < 16
    ensures OneBit(WordMask(k)) && WordMask(k) >> 1 == (if k < 15 then WordMask(k + 1) else 0)
    ensures Generator(k + 1) == (WordMask(k) == 0x1000 || WordMask(k) == 0x0020 || WordMask(k) == 0x0001)
  {
  }

  lemma MaskMoves(c: word, on: bool, z: word, t: bool, k: int, m: word, n: word)
    requires z == BitStep(c, on) && t == ((c & 0x8000 != 0) != on) && 0 <= k < 16
    requires m == WordMask(k) && n == if k < 15 then WordMask(k + 1) else 0
    ensures (z & m != 0) == ((c & n != 0) != (t && Generator(k + 1)))
  {
    Masks(k);
    StepMoves(c, on, z, t, m);
  }

  lemma BitsMove(c: word, z: word, t: bool, k: int, m: word, n: word)
    requires 0 <= k < 16 && m == WordMask(k) && n == if k < 15 then WordMask(k + 1) else 0
    requires (z & m != 0) == ((c & n != 0) != (t && Generator(k + 1)))
    ensures WordBits(z)[k] == ((k < 15 && WordBits(c)[k + 1]) != (t && Generator(k + 1)))
  {
    WordBitAt(z, k);
    if k < 15 {
      WordBitAt(c, k + 1);
    }
  }

  /** One step of the register: drop the leading coefficient after taking it, times the generator, away. */
  lemma StepBits(c: word, on: bool, k: int)
    requires 0 <= k < 16
    ensures WordBits(BitStep(c, on))[k]
         == ((k < 15 && WordBits(c)[k + 1]) != ((WordBits(c)[0] != on) && Generator(k + 1)))
  {
    var t := (c & 0x8000 != 0) != on;
    var m, n := WordMask(k), if k < 15 then WordMask(k + 1) else 0;
    WordBitAt(c, 0);
    MaskMoves(c, on, BitStep(c, on), t, k, m, n);
    BitsMove(c, BitStep(c, on), t, k, m, n);
  }

  /** What is still to be divided: the register over the first sixteen places of the bits that follow. */
  function Dividend(r: word, bits: seq<bool>): (s: seq<bool>)
    ensures |s| == |bits| + 16
  {
    Xor(bits + Zeros(16), WordBits(r) + Zeros(|bits|))
  }

  lemma DividendAt(r: word, bits: seq<bool>, j: int)
    requires 0 <= j < |bits| + 16
    ensures Dividend(r, bits)[j] == ((j < |bits| && bits[j]) != (j < 16 && WordBits(r)[j]))
  {
  }

  lemma DivideOnce(r: word, bits: seq<bool>, j: int)
    requires bits != [] && 0 <= j < |bits| + 16
    ensures Dividend(r, bits)[j] ==
      (((WordBits(r)[0] != bits[0]) && Generator(j)) != (j > 0 && Dividend(BitStep(r, bits[0]), bits[1..])[j - 1]))
  {
    DividendAt(r, bits, j);
    if j > 0 {
      DividendAt(BitStep(r, bits[0]), bits[1..], j - 1);
    }
    if 0 < j < 17 {
      StepBits(r, bits[0], j - 1);
    }
  }

  lemma QuotientBit(r: word, bits: seq<bool>, s: word, q: seq<bool>, rest: seq<bool>)
    requires bits != [] && s == BitStep(r, bits[0])
    requires |rest| == |bits| - 1 && q == [WordBits(r)[0] != bits[0]] + rest
    ensures Xor(Dividend(r, bits), Times(q)) == [false] + Xor(Dividend(s, bits[1..]), Times(rest))
  {
    assert q[1..] == rest;
    forall j | 0 <= j < |bits| + 16
      ensures Xor(Dividend(r, bits), Times(q))[j] == (j > 0 && Xor(Dividend(s, bits[1..]), Times(rest))[j - 1])
    {
      DivideOnce(r, bits, j);
    }
  }

  /** Feeding the register divides: the quotient is found bit by bit and the register ends as the remainder. */
  lemma {:induction false} FeedDivides(r: word, bits: seq<bool>) returns (q: seq<bool>)
    ensures |q| == |bits|
    ensures Xor(Dividend(r, bits), Times(q)) == Zeros(|bits|) + WordBits(Feed(r, bits))
    decreases bits
  {
    if bits == [] {
      q := [];
      assert Xor(Dividend(r, bits), Times(q)) == WordBits(r);
    } else {
      var s := BitStep(r, bits[0]);
      var rest := FeedDivides(s, bits[1..]);
      q := [WordBits(r)[0] != bits[0]] + rest;
      assert q[1..] == rest;
      QuotientBit(r, bits, s, q, rest);
      assert Zeros(|bits|) == [false] + Zeros(|bits| - 1);
    }
  }

  lemma {:induction false} TimesXor(p: seq<bool>, q: seq<bool>)
    requires |p| == |q|
    ensures Times(Xor(p, q)) == Xor(Times(p), Times(q))
  {
    if p == [] {
    } else {
      TimesXor(p[1..], q[1..]);
      assert Xor(p, q)[1..] == Xor(p[1..], q[1..]);
    }
  }

  /** A nonzero product has a coefficient at least as high as the generator's. */
  lemma {:induction false} TimesIsHigh(q: seq<bool>, i: nat)
    requires i < |q| && q[i] && forall j :: 0 <= j < i ==> !q[j]
    ensures Times(q)[i]
    decreases i
  {
    if i == 0 {
    } else {
      TimesIsHigh(q[1..], i - 1);
    }
  }

  /** The message times x^16 leaves this remainder, with this quotient. */
  predicate Leaves(bits: seq<bool>, q: seq<bool>, rem: seq<bool>) {
    && |rem| == 16 && |q| == |bits|
    && Xor(bits + Zeros(16), Times(q)) == Zeros(|bits|) + rem
  }

  lemma FirstOne(q: seq<bool>) returns (i: nat)
    requires exists j :: 0 <= j < |q| && q[j]
    ensures i < |q| && q[i] && forall j :: 0 <= j < i ==> !q[j]
  {
    i := 0;
    while !q[i]
      invariant i < |q| && forall j :: 0 <= j < i ==> !q[j]
      decreases |q| - i
    {
      i := i + 1;
    }
  }

  lemma SameQuotient(bits: seq<bool>, p: seq<bool>, q: seq<bool>, a: seq<bool>, b: seq<bool>)
    requires Leaves(bits, p, a) && Leaves(bits, q, b)
    ensures p == q
  {
    var d := Xor(p, q);
    TimesXor(p, q);
    forall j | 0 <= j < |bits| ensures !Times(d)[j] {
      assert Xor(bits + Zeros(16), Times(p))[j] == (Zeros(|bits|) + a)[j];
      assert Xor(bits + Zeros(16), Times(q))[j] == (Zeros(|bits|) + b)[j];
    }
    if exists j :: 0 <= j < |d| && d[j] {
      var i := FirstOne(d);
      TimesIsHigh(d, i);
    }
    forall j | 0 <= j < |p| ensures p[j] == q[j] {
      assert !d[j];
    }
  }

  /** The checksum is the remainder of the message, times x^16, by the generator, and the only one. */
  lemma ChecksumIsRemainder(data: seq<byte>, rem: seq<bool>)
    ensures rem == WordBits(Crc(data)) <==> exists q :: Leaves(BitsOf(data), q, rem)
  {
    var bits := BitsOf(data);
    var q := FeedDivides(0, bits);
    ZeroWord();
    assert Dividend(0, bits) == bits + Zeros(16);
    assert Leaves(bits, q, WordBits(Crc(data)));
    if p :| Leaves(bits, p, rem) {
      SameQuotient(bits, p, q, rem, WordBits(Crc(data)));
      assert Zeros(|bits|) + rem == Zeros(|bits|) + WordBits(Crc(data));
      assert (Zeros(|bits|) + rem)[|bits|..] == rem;
      assert (Zeros(|bits|) + WordBits(Crc(data)))[|bits|..] == WordBits(Crc(data));
    }
  }

  lemma ZeroWord()
    ensures WordBits(0) == Zeros(16)
  {
    forall k | 0 <= k < 16 ensures !WordBits(0)[k] {
      WordBitAt(0, k);
    }
  }
}
