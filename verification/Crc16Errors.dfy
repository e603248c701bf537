/** What the checksum of crc16/main.go detects. */
module Crc16Errors {
  import opened Bits
  import opened Crc16
  import opened Crc16Table
  import opened Folds

  // ----- the checksum is linear -----

  predicate Differ(p: bool, q: bool) { p != q }

  lemma BitStepOfXor(a: word, b: word, p: bool, q: bool)
    ensures BitStep(a ^ b, p != q) == BitStep(a, p) ^ BitStep(b, q)
  {
  }

  lemma BitStepLinear(a: word, b: word, p: bool, q: bool)
    ensures BitStep(WordXor(a, b), Differ(p, q)) == WordXor(BitStep(a, p), BitStep(b, q))
  {
    BitStepOfXor(a, b, p, q);
  }

  lemma FeedLinear(s: word, t: word, x: seq<bool>, y: seq<bool>)
    requires |x| == |y|
    ensures Feed(WordXor(s, t), Xor(x, y)) == WordXor(Feed(s, x), Feed(t, y))
  {
    assert Zip(Differ, x, y) == Xor(x, y);
    forall s, t, p, q ensures BitStep(WordXor(s, t), Differ(p, q)) == WordXor(BitStep(s, p), BitStep(t, q)) {
      BitStepLinear(s, t, p, q);
    }
    FoldLinear(BitStep, WordXor, Differ, s, t, x, y);
  }

  /** Exclusive or of two messages, byte by byte. */
  function XorBytes(x: seq<byte>, y: seq<byte>): (r: seq<byte>)
    requires |x| == |y|
    ensures |r| == |x|
  {
    seq(|x|, i requires 0 <= i < |x| => x[i] ^ y[i])
  }

  lemma BitsOfXor(x: seq<byte>, y: seq<byte>)
    requires |x| == |y|
    ensures BitsOf(XorBytes(x, y)) == Xor(BitsOf(x), BitsOf(y))
  {
    forall k | 0 <= k < 8 * |x|
      ensures BitsOf(XorBytes(x, y))[k] == Xor(BitsOf(x), BitsOf(y))[k]
    {
      ByteBitsXor(x[k / 8], y[k / 8]);
    }
  }

  /** The checksum of the exclusive or of two messages is the exclusive or of their checksums. */
  lemma CrcLinear(x: seq<byte>, y: seq<byte>)
    requires |x| == |y|
    ensures Crc(XorBytes(x, y)) == Crc(x) ^ Crc(y)
  {
    BitsOfXor(x, y);
    FeedLinear(0, 0, BitsOf(x), BitsOf(y));
  }

  lemma CrcDifference(x: seq<byte>, y: seq<byte>)
    requires |x| == |y|
    ensures Feed(0, Xor(BitsOf(x), BitsOf(y))) == Crc(x) ^ Crc(y)
  {
    FeedLinear(0, 0, BitsOf(x), BitsOf(y));
  }

  lemma FeedConcat(s: word, a: seq<bool>, b: seq<bool>)
    ensures Feed(s, a + b) == Feed(Feed(s, a), b)
  {
    FoldConcat(BitStep, s, a, b);
  }

  lemma FeedOne(s: word, on: bool)
    ensures Feed(s, [on]) == BitStep(s, on)
  {
    assert [on][1..] == [];
    assert Fold(BitStep, BitStep(s, on), []) == BitStep(s, on);
  }

  // ----- bursts -----

  lemma FalseStep(s: word)
    ensures BitStep(s, false) == 0 <==> s == 0
  {
  }

  /** Zero bits neither clear a register nor set a clear one. */
  lemma FeedZeros(s: word, bits: seq<bool>)
    requires forall i :: 0 <= i < |bits| ==> !bits[i]
    ensures Feed(s, bits) == 0 <==> s == 0
  {
    forall s: word ensures BitStep(s, false) == 0 <==> s == 0 {
      FalseStep(s);
    }
    FoldZeros(BitStep, 0, false, s, bits);
  }

  /** The low 16 - n bits of a register. */
  function LowMask(n: int): word {
    if n == 0 then 0xffff else if n == 1 then 0x7fff else if n == 2 then 0x3fff else if n == 3 then 0x1fff else
    if n == 4 then 0x0fff else if n == 5 then 0x07ff else if n == 6 then 0x03ff else if n == 7 then 0x01ff else
    if n == 8 then 0x00ff else if n == 9 then 0x007f else if n == 10 then 0x003f else if n == 11 then 0x001f else
    if n == 12 then 0x000f else if n == 13 then 0x0007 else if n == 14 then 0x0003 else if n == 15 then 0x0001 else 0
  }

  /** A register that holds at most its top n bits. */
  predicate Clear(n: int, r: word) {
    r & LowMask(n) == 0
  }

  lemma ClearBefore(m: word, s: word, on: bool)
    requires BitStep(s, on) & m == 0 && m & 1 == 1
    ensures s & (m >> 1) == 0 && on == (s & 0x8000 != 0)
  {
  }

  lemma Masks(n: int)
    requires 0 <= n < 16
    ensures LowMask(n) & 1 == 1 && LowMask(n) >> 1 == LowMask(n + 1)
  {
  }

  lemma StepBackwards(n: int, s: word, on: bool)
    requires 0 <= n < 16 && Clear(n, BitStep(s, on))
    ensures Clear(n + 1, s) && Top(s) == on
  {
    Masks(n);
    ClearBefore(LowMask(n), s, on);
  }

  /** At most sixteen bits that take a clear register to a clear register are all zero. */
  lemma ClearWindow(bits: seq<bool>)
    requires |bits| <= 16 && Feed(0, bits) == 0
    ensures forall i :: 0 <= i < |bits| ==> !bits[i]
  {
    forall n, s, on | 0 <= n < 16 && Clear(n, BitStep(s, on))
      ensures Clear(n + 1, s) && Top(s) == on
    {
      StepBackwards(n, s, on);
    }
    FalseStep(0);
    ZeroWindow(BitStep, Clear, Top, 16, 0, bits);
  }

  /** A string of bits whose ones lie within sixteen places leaves a nonzero register. */
  lemma BurstLeavesTrace(bits: seq<bool>, k: nat, i: nat)
    requires i < |bits| && bits[i]
    requires forall j :: 0 <= j < |bits| && !(k <= j < k + 16) ==> !bits[j]
    ensures Feed(0, bits) != 0
  {
    var n := if k + 16 <= |bits| then k + 16 else |bits|;
    forall s: word ensures BitStep(s, false) == 0 <==> s == 0 {
      FalseStep(s);
    }
    FoldWindow(BitStep, 0, false, bits, k, n);
    assert bits[k..n][i - k];
    if Feed(0, bits) == 0 {
      ClearWindow(bits[k..n]);
    }
  }

  lemma DifferSomewhere(x: seq<byte>, y: seq<byte>) returns (i: nat)
    requires |x| == |y| && x != y
    ensures i < 8 * |x| && BitsOf(x)[i] != BitsOf(y)[i]
  {
    if forall i :: 0 <= i < 8 * |x| ==> BitsOf(x)[i] == BitsOf(y)[i] {
      assert BitsOf(x) == BitsOf(y);
      BitsInjective(x, y);
    }
    i :| 0 <= i < 8 * |x| && BitsOf(x)[i] != BitsOf(y)[i];
  }

  /** Two messages of one length that differ, and only within sixteen consecutive bits, have different checksums. */
  lemma BurstDetected(x: seq<byte>, y: seq<byte>, k: nat)
    requires |x| == |y| && x != y
    requires forall j :: 0 <= j < 8 * |x| && BitsOf(x)[j] != BitsOf(y)[j] ==> k <= j < k + 16
    ensures Crc(x) != Crc(y)
  {
    var i := DifferSomewhere(x, y);
    BurstLeavesTrace(Xor(BitsOf(x), BitsOf(y)), k, i);
    CrcDifference(x, y);
    SameWord(Crc(x), Crc(y));
  }

  lemma SameWord(a: word, b: word)
    requires a ^ b != 0
    ensures a != b
  {
  }

  lemma StoredInjective(a: word, b: word)
    requires Stored(a) == Stored(b)
    ensures a == b
  {
    assert Stored(a)[0] == Stored(b)[0] && Stored(a)[1] == Stored(b)[1];
  }

  // ----- the last bits of a message -----

  /** The bits of the checksum that are stored twelve bits or more after the t-th last bit of the message. */
  function Kept(t: int): word {
    if t == 1 then 0x1f00 else if t == 2 then 0x3f00 else if t == 3 then 0x7f00 else if t == 4 then 0xff00 else
    if t == 5 then 0xff01 else if t == 6 then 0xff03 else if t == 7 then 0xff07 else if t == 8 then 0xff0f else
    if t == 9 then 0xff1f else if t == 10 then 0xff3f else 0xff7f
  }

  lemma ElevenSteps(a: bool, b: bool, c: bool, d: bool, e: bool, f: bool, g: bool, h: bool, i: bool, j: bool, k: bool,
      p1: word, p2: word, p3: word, p4: word, p5: word, p6: word, p7: word, p8: word, p9: word, p10: word, p11: word,
      t: int)
    requires p1 == BitStep(0, a) && p2 == BitStep(p1, b) && p3 == BitStep(p2, c) && p4 == BitStep(p3, d)
    requires p5 == BitStep(p4, e) && p6 == BitStep(p5, f) && p7 == BitStep(p6, g) && p8 == BitStep(p7, h)
    requires p9 == BitStep(p8, i) && p10 == BitStep(p9, j) && p11 == BitStep(p10, k)
    requires 1 <= t <= 11 && p11 & Kept(t) == 0
    requires (t <= 10 ==> !a) && (t <= 9 ==> !b) && (t <= 8 ==> !c) && (t <= 7 ==> !d) && (t <= 6 ==> !e)
    requires (t <= 5 ==> !f) && (t <= 4 ==> !g) && (t <= 3 ==> !h) && (t <= 2 ==> !i) && (t <= 1 ==> !j)
    ensures !a && !b && !c && !d && !e && !f && !g && !h && !i && !j && !k
  {
  }

  lemma ElevenBits(bits: seq<bool>, t: nat)
    requires |bits| == 11 && 1 <= t <= 11 && Feed(0, bits) & Kept(t) == 0
    requires forall j :: 0 <= j < 11 - t ==> !bits[j]
    ensures forall j :: 0 <= j < 11 ==> !bits[j]
  {
    var p1 := BitStep(0, bits[0]);
    var p2 := BitStep(p1, bits[1]);
    var p3 := BitStep(p2, bits[2]);
    var p4 := BitStep(p3, bits[3]);
    var p5 := BitStep(p4, bits[4]);
    var p6 := BitStep(p5, bits[5]);
    var p7 := BitStep(p6, bits[6]);
    var p8 := BitStep(p7, bits[7]);
    var p9 := BitStep(p8, bits[8]);
    var p10 := BitStep(p9, bits[9]);
    var p11 := BitStep(p10, bits[10]);
    FoldStates11(BitStep, bits, 0, p1, p2, p3, p4, p5, p6, p7, p8, p9, p10, p11);
    ElevenSteps(bits[0], bits[1], bits[2], bits[3], bits[4], bits[5], bits[6], bits[7], bits[8], bits[9], bits[10],
      p1, p2, p3, p4, p5, p6, p7, p8, p9, p10, p11, t);
  }

  /** A change within the last t bits of a message, with t at most eleven, shows in the bits of the checksum that are
      stored twelve bits or more after the t-th last bit. */
  lemma TailShows(bits: seq<bool>, t: nat)
    requires 1 <= t <= 11 && Feed(0, bits) & Kept(t) == 0
    requires forall j :: 0 <= j < |bits| - t ==> !bits[j]
    ensures forall j :: 0 <= j < |bits| ==> !bits[j]
  {
    var padded := Zeros(11) + bits;
    var n := |bits|;
    var last := padded[n..];
    FoldConcat(BitStep, 0, Zeros(11), bits);
    FeedZeros(0, Zeros(11));
    assert padded == padded[..n] + last;
    FoldConcat(BitStep, 0, padded[..n], last);
    FeedZeros(0, padded[..n]);
    ElevenBits(last, t);
    forall j | 0 <= j < n ensures !bits[j] {
      if j >= n - t {
        assert bits[j] == padded[11 + j] == last[11 + j - n];
      }
    }
  }

  lemma HighByteKept(c: word)
    ensures c & Kept(4) == 0 <==> c >> 8 == 0
  {
  }

  /** A change within the last four bits of a message changes the high byte of the checksum. */
  lemma TailChangesHighByte(bits: seq<bool>, i: nat)
    requires 4 <= |bits| && |bits| - 4 <= i < |bits| && bits[i]
    requires forall j :: 0 <= j < |bits| - 4 ==> !bits[j]
    ensures Feed(0, bits) >> 8 != 0
  {
    HighByteKept(Feed(0, bits));
    if Feed(0, bits) & Kept(4) == 0 {
      TailShows(bits, 4);
    }
  }
}
