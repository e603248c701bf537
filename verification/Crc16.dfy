/** The checksum of crc16/main.go against polynomial division done one bit at a time. */
module Crc16 {
  import opened Bits
  import opened Crc16Table
  import opened Folds

  /** One bit of the message enters at the top of the register. */
  function BitStep(r: word, on: bool): word {
    ZeroStep(if on then r ^ 0x8000 else r)
  }

  function Feed(r: word, bits: seq<bool>): word {
    Fold(BitStep, r, bits)
  }

  /** The remainder of a message: its bits, from the first on, through a register that starts at zero. */
  function Crc(data: seq<byte>): word {
    Feed(0, BitsOf(data))
  }

  // ----- one byte at a time -----

  function WordXor(a: word, b: word): word { a ^ b }

  function Left(w: word): word { w << 1 }

  predicate Top(w: word) { w & 0x8000 != 0 }

  lemma AbsorbBits(s: word, r: word)
    ensures ZeroStep(s ^ r) == BitStep(s, r & 0x8000 != 0) ^ (r << 1)
  {
  }

  lemma Absorb(s: word, r: word)
    ensures ZeroStep(WordXor(s, r)) == WordXor(BitStep(s, Top(r)), Left(r))
  {
    AbsorbBits(s, r);
  }

  lemma Absorbs(s: word, r: word)
    ensures Iterate(ZeroStep, 8, WordXor(s, r))
      == WordXor(Fold(BitStep, s, Emitted(Top, Left, 8, r)), Iterate(Left, 8, r))
  {
    forall s, r ensures ZeroStep(WordXor(s, r)) == WordXor(BitStep(s, Top(r)), Left(r)) {
      Absorb(s, r);
    }
    IterateAbsorbs(ZeroStep, WordXor, BitStep, Top, Left, 8, s, r);
  }

  lemma EightLefts(a: word, b: word, c: word, d: word, e: word, f: word, g: word, h: word, i: word, x: byte)
    requires a == (x as word) << 8 && b == a << 1 && c == b << 1 && d == c << 1 && e == d << 1
    requires f == e << 1 && g == f << 1 && h == g << 1 && i == h << 1
    ensures Top(a) == (x & 0x80 != 0) && Top(b) == (x & 0x40 != 0) && Top(c) == (x & 0x20 != 0)
    ensures Top(d) == (x & 0x10 != 0)
    ensures Top(e) == (x & 0x08 != 0) && Top(f) == (x & 0x04 != 0) && Top(g) == (x & 0x02 != 0)
    ensures Top(h) == (x & 0x01 != 0)
    ensures i == 0
  {
  }

  lemma ByteBitsAre(x: byte, a: bool, b: bool, c: bool, d: bool, e: bool, f: bool, g: bool, h: bool)
    requires a == (x & 0x80 != 0) && b == (x & 0x40 != 0) && c == (x & 0x20 != 0) && d == (x & 0x10 != 0)
    requires e == (x & 0x08 != 0) && f == (x & 0x04 != 0) && g == (x & 0x02 != 0) && h == (x & 0x01 != 0)
    ensures ByteBits(x) == [a, b, c, d, e, f, g, h]
  {
    EightOf(ByteBits(x), a, b, c, d, e, f, g, h);
  }

  /** The bits of a byte come to the top one after the other when the byte moves up from the high half of a word. */
  lemma TopsOfByte(x: byte)
    ensures Emitted(Top, Left, 8, (x as word) << 8) == ByteBits(x)
    ensures Iterate(Left, 8, (x as word) << 8) == 0
  {
    var a := (x as word) << 8;
    var b := Left(a);
    var c := Left(b);
    var d := Left(c);
    var e := Left(d);
    var f := Left(e);
    var g := Left(f);
    var h := Left(g);
    var i := Left(h);
    EightLefts(a, b, c, d, e, f, g, h, i, x);
    Emitted8(Top, Left, a, b, c, d, e, f, g, h);
    Iterate8(Left, a);
    ByteBitsAre(x, Top(a), Top(b), Top(c), Top(d), Top(e), Top(f), Top(g), Top(h));
  }

  lemma Halves(c: word, b: byte, e: word, i: word)
    requires e == WordXor(c, (b as word) << 8) && i == e >> 8
    ensures i == ((c >> 8) ^ (b as word)) & 0xff
    ensures e << 8 == (c << 8) & 0xffff
  {
  }

  lemma XorZero(a: word, z: word)
    requires z == 0
    ensures WordXor(a, z) == a
  {
  }

  lemma FeedsByte(c: word, b: byte)
    ensures Iterate(ZeroStep, 8, WordXor(c, (b as word) << 8)) == Feed(c, ByteBits(b))
  {
    Absorbs(c, (b as word) << 8);
    TopsOfByte(b);
    XorZero(Feed(c, ByteBits(b)), Iterate(Left, 8, (b as word) << 8));
  }

  lemma Turn(c: word, e: word, i: word, v: word, fed: word)
    requires i == e >> 8 && e << 8 == (c << 8) & 0xffff
    requires v == Entry(i) && fed == (e << 8) ^ Entry(e >> 8)
    ensures ((c << 8) & 0xffff) ^ v == fed
  {
  }

  /** One turn of the table-driven loop takes the register through the eight bits of a byte. */
  lemma TurnFeedsByte(c: word, b: byte, i: word, v: word)
    requires i == ((c >> 8) ^ (b as word)) & 0xff && v == Entry(i)
    ensures ((c << 8) & 0xffff) ^ v == Feed(c, ByteBits(b))
  {
    var e := WordXor(c, (b as word) << 8);
    FeedsByte(c, b);
    ZeroByte(e);
    Halves(c, b, e, e >> 8);
    Turn(c, e, i, v, Feed(c, ByteBits(b)));
  }

  lemma FeedByByte(data: seq<byte>, i: int)
    requires 0 <= i < |data|
    ensures Crc(data[..i + 1]) == Feed(Crc(data[..i]), ByteBits(data[i]))
  {
    assert data[..i + 1] == data[..i] + [data[i]];
    BitsOfConcat(data[..i], [data[i]]);
    assert BitsOf([data[i]]) == ByteBits(data[i]);
    FoldConcat(BitStep, 0, BitsOf(data[..i]), ByteBits(data[i]));
  }

  lemma TurnExtends(data: seq<byte>, n: int, c: word, i: word, v: word)
    requires 0 <= n < |data| && c == Crc(data[..n])
    requires i == ((c >> 8) ^ (data[n] as word)) & 0xff && v == Entry(i)
    ensures ((c << 8) & 0xffff) ^ v == Crc(data[..n + 1])
  {
    TurnFeedsByte(c, data[n], i, v);
    FeedByByte(data, n);
  }

  /** How a checksum is stored: least significant byte first. */
  function Stored(c: word): (r: seq<byte>)
    ensures |r| == 2
  {
    [(c & 0xff) as byte, (c >> 8) as byte]
  }

  method LookUp(i: word) returns (v: word)
    requires i <= 0xff
    ensures v == Entry(i)
  {
    TableHolds(i);
    v := CRC16TAB[i as int];
  }

  method Checksum(data: seq<byte>) returns (out: seq<byte>)
    ensures out == Stored(Crc(data))
  {
    var crc: word := 0;
    for n := 0 to |data|
      invariant crc == Crc(data[..n])
    {
      var i := ((crc >> 8) ^ (data[n] as word)) & 0x00ff;
      var v := LookUp(i);
      TurnExtends(data, n, crc, i, v);
      crc := ((crc << 8) & 0xffff) ^ v;
    }
    assert data[..|data|] == data;
    out := Stored(crc);
  }

  /** Whether the checksum that came with the data is the right one. */
  method Validate(data: seq<byte>, expected: seq<byte>) returns (ok: bool)
    ensures ok <==> expected == Stored(Crc(data))
  {
    var actual := Checksum(data);
    ok := actual == expected;
  }
}
