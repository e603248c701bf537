/** Damaged keys: which changes of the bytes and of the text of a key strkey/main.go notices. */
module StrKeyErrors {
  import Base32
  import opened Bits
  import opened Crc16
  import opened Crc16Errors
  import opened StrKey
  import opened Wrappers

  /** b is a with changes only among the w bits from k on. */
  predicate ChangedWithin(a: seq<byte>, b: seq<byte>, k: int, w: nat) {
    && |a| == |b|
    && forall j :: 0 <= j < 8 * |a| && !(k <= j < k + w) ==> BitsOf(b)[j] == BitsOf(a)[j]
  }

  lemma ChangedPrefix(a: seq<byte>, b: seq<byte>, k: nat, w: nat, n: nat)
    requires ChangedWithin(a, b, k, w) && n <= |a|
    ensures ChangedWithin(a[..n], b[..n], k, w)
  {
    forall j | 0 <= j < 8 * n && !(k <= j < k + w)
      ensures BitsOf(b[..n])[j] == BitsOf(a[..n])[j]
    {
      assert BitsOf(b)[j] == BitsOf(a)[j];
    }
  }

  /** A change before the checksum changes the checksum. */
  lemma ChangedData(a: seq<byte>, b: seq<byte>, k: nat)
    requires ChangedWithin(a, b, k, 12) && a != b
    ensures Stored(Crc(a)) != Stored(Crc(b))
  {
    BurstDetected(a, b, k);
    if Stored(Crc(a)) == Stored(Crc(b)) {
      StoredInjective(Crc(a), Crc(b));
    }
  }

  /** The low n bits of a byte. */
  function LowBits(n: int): byte {
    if n == 0 then 0x00 else if n == 1 then 0x01 else if n == 2 then 0x03 else if n == 3 then 0x07 else
    if n == 4 then 0x0f else if n == 5 then 0x1f else if n == 6 then 0x3f else if n == 7 then 0x7f else 0xff
  }

  lemma OneBitMore(a: byte, b: byte, p: int)
    requires 0 <= p < 8 && (a ^ b) & LowBits(7 - p) == 0 && BitAt(a, p) == BitAt(b, p)
    ensures (a ^ b) & LowBits(8 - p) == 0
  {
  }

  /** Bytes that agree from bit p on differ in higher bits only. */
  lemma {:induction false} SameLowBits(a: byte, b: byte, p: int)
    requires 0 <= p <= 8 && forall k :: p <= k < 8 ==> BitAt(a, k) == BitAt(b, k)
    ensures (a ^ b) & LowBits(8 - p) == 0
    decreases 8 - p
  {
    if p < 8 {
      SameLowBits(a, b, p + 1);
      OneBitMore(a, b, p);
    }
  }

  /** The places in the two stored bytes from which on nothing differs. */
  predicate From(t: int, p: int, q: int) {
    1 <= t <= 11 && p == (if t <= 4 then 8 else 12 - t) && q == if t <= 4 then 4 - t else 0
  }

  lemma HalvesKept(x: bv16, y: bv16, t: int, p: int, q: int, lx: byte, ly: byte, hx: byte, hy: byte)
    requires From(t, p, q)
    requires lx == (x & 0xff) as byte && ly == (y & 0xff) as byte && hx == (x >> 8) as byte && hy == (y >> 8) as byte
    requires (lx ^ ly) & LowBits(8 - p) == 0 && (hx ^ hy) & LowBits(8 - q) == 0
    ensures (x ^ y) & Kept(t) == 0
  {
  }

  lemma ByteAgrees(a: seq<byte>, b: seq<byte>, i: nat, p: nat)
    requires i < |a| == |b| && p <= 8
    requires forall j :: 8 * i + p <= j < 8 * i + 8 ==> BitsOf(a)[j] == BitsOf(b)[j]
    ensures (a[i] ^ b[i]) & LowBits(8 - p) == 0
  {
    forall k | p <= k < 8 ensures BitAt(a[i], k) == BitAt(b[i], k) {
      BitsOfByte(a, i);
      BitsOfByte(b, i);
      assert BitsOf(a)[8 * i + k] == ByteBits(a[i])[k] && BitsOf(b)[8 * i + k] == ByteBits(b[i])[k];
    }
    SameLowBits(a[i], b[i], p);
  }

  lemma StoredParts(c: bv16, s: seq<byte>)
    requires s == Stored(c)
    ensures |s| == 2 && s[0] == (c & 0xff) as byte && s[1] == (c >> 8) as byte
  {
  }

  lemma StoredAgreeFrom(x: bv16, y: bv16, a: seq<byte>, b: seq<byte>, t: nat, p: nat, q: nat)
    requires a == Stored(x) && b == Stored(y) && From(t, p, q)
    requires (a[0] ^ b[0]) & LowBits(8 - p) == 0 && (a[1] ^ b[1]) & LowBits(8 - q) == 0
    ensures (x ^ y) & Kept(t) == 0
  {
    StoredParts(x, a);
    StoredParts(y, b);
    HalvesKept(x, y, t, p, q, a[0], b[0], a[1], b[1]);
  }

  lemma BytesAgree(a: seq<byte>, b: seq<byte>, t: nat, p: nat, q: nat)
    requires |a| == |b| == 2 && From(t, p, q)
    requires forall j :: 12 - t <= j < 16 ==> BitsOf(a)[j] == BitsOf(b)[j]
    ensures (a[0] ^ b[0]) & LowBits(8 - p) == 0 && (a[1] ^ b[1]) & LowBits(8 - q) == 0
  {
    ByteAgrees(a, b, 0, p);
    ByteAgrees(a, b, 1, q);
  }

  /** Two checksums that are stored the same from bit 12 - t on, where the low byte comes first. */
  lemma StoredAgree(x: bv16, y: bv16, a: seq<byte>, b: seq<byte>, t: nat)
    requires a == Stored(x) && b == Stored(y) && 1 <= t <= 11
    requires forall j :: 12 - t <= j < 16 ==> BitsOf(a)[j] == BitsOf(b)[j]
    ensures (x ^ y) & Kept(t) == 0
  {
    var p, q := if t <= 4 then 8 else 12 - t, if t <= 4 then 4 - t else 0;
    BytesAgree(a, b, t, p, q);
    StoredAgreeFrom(x, y, a, b, t, p, q);
  }

  /** Within the last t bits before the checksum nothing changes without a change of the checksum that is stored at
      least twelve bits after them. */
  lemma ChangedTail(a: seq<byte>, b: seq<byte>, t: nat)
    requires |a| == |b| && 1 <= t <= 11
    requires forall j :: 0 <= j < 8 * |a| - t ==> BitsOf(a)[j] == BitsOf(b)[j]
    requires forall j :: 12 - t <= j < 16 ==> BitsOf(Stored(Crc(a)))[j] == BitsOf(Stored(Crc(b)))[j]
    ensures a == b
  {
    if a != b {
      var d := Xor(BitsOf(a), BitsOf(b));
      var i := DifferSomewhere(a, b);
      assert d[i];
      CrcDifference(a, b);
      StoredAgree(Crc(a), Crc(b), Stored(Crc(a)), Stored(Crc(b)), t);
      TailShows(d, t);
    }
  }

  lemma SameByte(a: seq<byte>, b: seq<byte>, i: int)
    requires 0 <= i < |a| == |b|
    requires forall j :: 8 * i <= j < 8 * i + 8 ==> BitsOf(a)[j] == BitsOf(b)[j]
    ensures a[i] == b[i]
  {
    BitsOfByte(a, i);
    BitsOfByte(b, i);
    assert ByteBits(a[i]) == ByteBits(b[i]);
    ByteOfByteBits(a[i]);
    ByteOfByteBits(b[i]);
  }

  lemma SuffixBit(a: seq<byte>, n: nat, j: nat)
    requires n <= |a| && j < 8 * (|a| - n)
    ensures BitsOf(a[n..])[j] == BitsOf(a)[8 * n + j]
  {
    assert (8 * n + j) / 8 == n + j / 8 && (8 * n + j) % 8 == j % 8;
  }

  /** A change across the border that leaves the checksum right. */
  lemma AcrossTheBorder(a: seq<byte>, b: seq<byte>, k: nat)
    requires |a| >= 3 && ChangedWithin(a, b, k, 12) && Consistent(a) && Consistent(b)
    requires k < 8 * (|a| - 2) < k + 12
    ensures a[..|a| - 2] == b[..|a| - 2]
  {
    var n := |a| - 2;
    var t := 8 * n - k;
    ChangedPrefix(a, b, k, 12, n);
    forall j | 12 - t <= j < 16 ensures BitsOf(a[n..])[j] == BitsOf(b[n..])[j] {
      SuffixBit(a, n, j);
      SuffixBit(b, n, j);
    }
    ChangedTail(a[..n], b[..n], t);
  }

  /** Twelve neighbouring bits cannot change without being noticed, wherever they lie: in the data, in the checksum, or
      across the border. */
  lemma DamageShows(a: seq<byte>, b: seq<byte>, k: nat)
    requires |a| >= 3 && Consistent(a) && ChangedWithin(a, b, k, 12) && a != b
    ensures !Consistent(b)
  {
    var n := |a| - 2;
    var va, vb := a[..n], b[..n];
    assert a == va + a[n..] && b == vb + b[n..];
    ChangedPrefix(a, b, k, 12, n);
    if va != vb {
      var i := DifferSomewhere(va, vb);
      if k + 12 <= 8 * n {
        SameByte(a, b, n);
        SameByte(a, b, n + 1);
        assert a[n..] == b[n..];
        ChangedData(va, vb, k);
      } else if Consistent(b) {
        AcrossTheBorder(a, b, k);
      }
    }
  }

  lemma LastBitStep()
    ensures BitStep(0, true) == 0x1021
  {
  }

  /** The last bit of a message changes three bits of its checksum. */
  lemma LastBitChanges(u: seq<byte>, v: seq<byte>)
    requires |u| == |v| > 0 && BitsOf(u)[8 * |v| - 1] != BitsOf(v)[8 * |v| - 1]
    requires forall j :: 0 <= j < 8 * |v| - 1 ==> BitsOf(u)[j] == BitsOf(v)[j]
    ensures Crc(u) ^ Crc(v) == 0x1021
  {
    var d := Xor(BitsOf(u), BitsOf(v));
    var n := 8 * |v| - 1;
    CrcDifference(u, v);
    assert d == d[..n] + [true];
    FeedConcat(0, d[..n], [true]);
    FeedZeros(0, d[..n]);
    FeedOne(0, true);
    LastBitStep();
  }

  lemma HighBitsStay(x: bv16, y: bv16)
    requires x ^ y == 0x1021
    ensures (((x >> 8) as byte) ^ ((y >> 8) as byte)) & 0x0f == 0
  {
  }

  lemma SameLowFour(a: byte, b: byte, k: int)
    requires (a ^ b) & 0x0f == 0 && 4 <= k < 8
    ensures BitAt(a, k) == BitAt(b, k)
  {
  }

  lemma StoredEndStays(x: bv16, y: bv16, a: seq<byte>, b: seq<byte>, j: nat)
    requires x ^ y == 0x1021 && a == Stored(x) && b == Stored(y) && 12 <= j < 16
    ensures BitsOf(a)[j] == BitsOf(b)[j]
  {
    HighBitsStay(x, y);
    StoredParts(x, a);
    StoredParts(y, b);
    SameLowFour(a[1], b[1], j - 8);
    BitsOfByte(a, 1);
    BitsOfByte(b, 1);
    assert BitsOf(a)[j] == ByteBits(a[1])[j - 8] && BitsOf(b)[j] == ByteBits(b[1])[j - 8];
  }

  lemma FlipLast(b: byte, k: int)
    requires 0 <= k < 8
    ensures BitAt(b ^ 0x01, k) == (BitAt(b, k) != (k == 7))
  {
    XorMasks(b, 0x01, ByteMask(k));
  }

  lemma FlippedBits(v: seq<byte>, u: seq<byte>)
    requires v != [] && u == v[|v| - 1 := v[|v| - 1] ^ 0x01]
    ensures forall j :: 0 <= j < 8 * |v| ==> BitsOf(u)[j] == (BitsOf(v)[j] != (j == 8 * |v| - 1))
  {
    forall j | 0 <= j < 8 * |v| ensures BitsOf(u)[j] == (BitsOf(v)[j] != (j == 8 * |v| - 1)) {
      if j / 8 == |v| - 1 {
        FlipLast(v[|v| - 1], j % 8);
      }
    }
  }

  lemma ThirteenWindow(v: seq<byte>, u: seq<byte>, sv: seq<byte>, su: seq<byte>)
    requires v != [] && |u| == |v| && |sv| == |su| == 2
    requires forall j :: 0 <= j < 8 * |v| - 1 ==> BitsOf(u)[j] == BitsOf(v)[j]
    requires forall j :: 12 <= j < 16 ==> BitsOf(su)[j] == BitsOf(sv)[j]
    ensures ChangedWithin(v + sv, u + su, 8 * |v| - 1, 13)
  {
    BitsOfConcat(v, sv);
    BitsOfConcat(u, su);
  }

  /** Thirteen can, because the low byte is stored first: the last bit of any data together with the third, the eighth
      and the twelfth bit after it, which are all that the last bit changes in the checksum. */
  lemma ThirteenBitsEscape(v: seq<byte>) returns (b: seq<byte>)
    requires v != []
    ensures var a := v + Stored(Crc(v));
      && |b| == |a| && Consistent(a) && Consistent(b) && a != b
      && ChangedWithin(a, b, 8 * |v| - 1, 13)
  {
    var n := |v|;
    var u := v[n - 1 := v[n - 1] ^ 0x01];
    var su, sv := Stored(Crc(u)), Stored(Crc(v));
    FlippedBits(v, u);
    LastBitChanges(u, v);
    forall j | 12 <= j < 16 ensures BitsOf(su)[j] == BitsOf(sv)[j] {
      StoredEndStays(Crc(u), Crc(v), su, sv, j);
    }
    ThirteenWindow(v, u, sv, su);
    b := u + su;
    assert (v + sv)[..n] == v && (v + sv)[n..] == sv && b[..n] == u && b[n..] == su;
    assert BitsOf(u)[8 * n - 1] != BitsOf(v)[8 * n - 1];
  }

  lemma DamagedText(s: string, raw: seq<byte>, expected: byte)
    requires Base32.Decode(s) == Some(raw) && |raw| >= 3 && !Consistent(raw)
    ensures Decoded(expected, s) in {Err(InvalidVersionByte), Err(InvalidChecksum)}
  {
  }

  lemma SameText(s: string, t: string, expected: byte)
    requires Base32.Decode(s) == Base32.Decode(t)
    ensures Decoded(expected, s) == Decoded(expected, t)
  {
    assert DecodedString(s) == DecodedString(t);
  }

  /** What becomes of a key when one character before its padding is replaced by another character of the alphabet: it
      can still be read if and only if the characters agree on the bits that the reader keeps, and then by the same
      reader and as the same payload. A text whose bytes fill their characters drops no bits, so there every replacement
      is noticed. */
  lemma ReplacementNoticed(version: byte, payload: seq<byte>, s: string, i: nat, c: char, expected: byte)
    requires Encoded(version, payload) == Ok(s)
    requires i < |Base32.Chars(s)| && Base32.InAlphabet(c) && c != s[i]
    ensures Base32.InAlphabet(s[i])
    ensures Base32.AgreesOnKept(s, i, c, 8 * (|payload| + 3)) ==> Decoded(expected, s[i := c]) == Decoded(expected, s)
    ensures !Base32.AgreesOnKept(s, i, c, 8 * (|payload| + 3))
      ==> Decoded(expected, s[i := c]) in {Err(InvalidVersionByte), Err(InvalidChecksum)}
    ensures (|payload| + 3) % 5 == 0 ==> !Base32.AgreesOnKept(s, i, c, 8 * (|payload| + 3))
  {
    var raw := Raw(version, payload);
    RawParts(version, payload);
    Base32.DecodeEncode(raw);
    Base32.EncodeIsOneLine(raw);
    Base32.ReplacedIsOneLine(s, i, c);
    var changed := Base32.ReplaceChar(s, raw, i, c);
    if changed != raw {
      DamageShows(raw, changed, 5 * i);
      DamagedText(s[i := c], changed, expected);
    } else {
      SameText(s, s[i := c], expected);
    }
    if (|payload| + 3) % 5 == 0 {
      Base32.AllKept(s, raw, i, c);
    }
  }

  /** Replacing two neighbouring characters changes the bytes if it changes the text and every bit is kept. */
  lemma TwoChange(s: string, raw: seq<byte>, one: seq<byte>, two: seq<byte>, i: nat, c: char, d: char)
    requires Base32.DecodeLine(s) == Some(raw) && |raw| % 5 == 0 && i + 1 < |Base32.Chars(s)|
    requires Base32.InAlphabet(c) && Base32.InAlphabet(d) && (c != s[i] || d != s[i + 1])
    requires |one| == |two| == |raw| && i + 1 < |Base32.Chars(s[i := c])|
    requires Base32.DecodeLine(s[i := c]) == Some(one)
    requires Base32.InAlphabet(s[i]) && Base32.InAlphabet(s[i := c][i + 1])
    requires one == raw <==> Base32.AgreesOnKept(s, i, c, 8 * |raw|)
    requires two == one <==> Base32.AgreesOnKept(s[i := c], i + 1, d, 8 * |raw|)
    requires ChangedWithin(raw, one, 5 * i, 5) && ChangedWithin(one, two, 5 * i + 5, 5)
    ensures two != raw
  {
    if c != s[i] {
      Base32.AllKept(s, raw, i, c);
      var j := DifferSomewhere(one, raw);
      assert BitsOf(two)[j] == BitsOf(one)[j];
    } else {
      assert s[i := c] == s;
      Base32.AllKept(s[i := c], one, i + 1, d);
    }
  }

  lemma WindowsJoin(a: seq<byte>, b: seq<byte>, c: seq<byte>, k: nat)
    requires ChangedWithin(a, b, k, 5) && ChangedWithin(b, c, k + 5, 5)
    ensures ChangedWithin(a, c, k, 12)
  {
    forall j | 0 <= j < 8 * |a| && !(k <= j < k + 12)
      ensures BitsOf(c)[j] == BitsOf(a)[j]
    {
      assert BitsOf(b)[j] == BitsOf(a)[j];
    }
  }

  lemma TwoReplacedBytes(s: string, raw: seq<byte>, i: nat, c: char, d: char) returns (two: seq<byte>)
    requires Base32.DecodeLine(s) == Some(raw) && i + 1 < |Base32.Chars(s)|
    requires Base32.InAlphabet(c) && Base32.InAlphabet(d) && (c != s[i] || d != s[i + 1])
    ensures Base32.DecodeLine(s[i := c][i + 1 := d]) == Some(two) && ChangedWithin(raw, two, 5 * i, 12)
    ensures |raw| % 5 == 0 ==> two != raw
  {
    Base32.ReplacedText(s, i, c);
    var one := Base32.ReplaceChar(s, raw, i, c);
    two := Base32.ReplaceChar(s[i := c], one, i + 1, d);
    WindowsJoin(raw, one, two, 5 * i);
    if |raw| % 5 == 0 {
      TwoChange(s, raw, one, two, i, c, d);
    }
  }

  lemma TwoReplacedIsOneLine(s: string, i: nat, c: char, d: char)
    requires Base32.OneLine(s) && i + 1 < |s| && Base32.InAlphabet(c) && Base32.InAlphabet(d)
    ensures Base32.Strip(s[i := c][i + 1 := d]) == s[i := c][i + 1 := d]
  {
    Base32.ReplacedIsOneLine(s, i, c);
    Base32.ReplacedIsOneLine(s[i := c], i + 1, d);
  }

  /** A text with other bytes than a key's, changed within twelve bits, is refused. */
  lemma OtherBytes(t: string, raw: seq<byte>, two: seq<byte>, k: nat, expected: byte)
    requires Base32.Decode(t) == Some(two) && |raw| >= 3 && Consistent(raw) && ChangedWithin(raw, two, k, 12)
    requires two != raw
    ensures Decoded(expected, t) in {Err(InvalidVersionByte), Err(InvalidChecksum)}
  {
    DamageShows(raw, two, k);
    DamagedText(t, two, expected);
  }

  /** Replacing two neighbouring characters, swapping them for instance, leaves a text that is refused or that reads as
      before; and where the bytes fill their characters it is always refused. */
  lemma TwoReplacementsNoticed(version: byte, payload: seq<byte>, s: string, i: nat, c: char, d: char, expected: byte)
    requires Encoded(version, payload) == Ok(s)
    requires i + 1 < |Base32.Chars(s)| && Base32.InAlphabet(c) && Base32.InAlphabet(d) && (c != s[i] || d != s[i + 1])
    ensures var t := s[i := c][i + 1 := d];
      && (Decoded(expected, t) == Decoded(expected, s)
          || Decoded(expected, t) in {Err(InvalidVersionByte), Err(InvalidChecksum)})
      && ((|payload| + 3) % 5 == 0 ==> Decoded(expected, t) in {Err(InvalidVersionByte), Err(InvalidChecksum)})
  {
    var raw, t := Raw(version, payload), s[i := c][i + 1 := d];
    RawParts(version, payload);
    Base32.DecodeEncode(raw);
    Base32.EncodeIsOneLine(raw);
    TwoReplacedIsOneLine(s, i, c, d);
    var two := TwoReplacedBytes(s, raw, i, c, d);
    if two != raw {
      OtherBytes(t, raw, two, 5 * i, expected);
    } else {
      SameText(s, t, expected);
    }
  }
}
