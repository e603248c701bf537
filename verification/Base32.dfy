/** The base 32 encoding of RFC 4648, section 6, which strkey/main.go takes from Go's library. */
module Base32 {
  import opened Bits
  import opened Wrappers

  /** The letters A to Z stand for 0 to 25, the digits 2 to 7 for 26 to 31. */
  predicate InAlphabet(c: char) {
    'A' <= c <= 'Z' || '2' <= c <= '7'
  }

  function IndexOf(c: char): (n: int)
    requires InAlphabet(c)
    ensures 0 <= n < 32
  {
    if c <= '7' then c as int - '2' as int + 26 else c as int - 'A' as int
  }

  function CharAt(n: int): (c: char)
    requires 0 <= n < 32
    ensures InAlphabet(c) && IndexOf(c) == n
  {
    if n < 26 then ('A' as int + n) as char else ('2' as int + n - 26) as char
  }

  lemma CharAtIndex(c: char)
    requires InAlphabet(c)
    ensures CharAt(IndexOf(c)) == c
  {
  }

  /** The alphabet, in the order of the values it stands for. */
  lemma Alphabet(n: int)
    requires 0 <= n < 32
    ensures CharAt(n) == "ABCDEFGHIJKLMNOPQRSTUVWXYZ234567"[n]
  {
    var letters, digits := "ABCDEFGHIJKLMNOPQRSTUVWXYZ", "234567";
    assert "ABCDEFGHIJKLMNOPQRSTUVWXYZ234567" == letters + digits;
    assert n < 26 ==> letters[n] as int == 'A' as int + n;
    assert n >= 26 ==> digits[n - 26] as int == '2' as int + n - 26;
  }

  function Digit(on: bool): int { if on then 1 else 0 }

  function CharOf(g: seq<bool>): (c: char)
    requires |g| == 5
    ensures InAlphabet(c)
  {
    CharAt(16 * Digit(g[0]) + 8 * Digit(g[1]) + 4 * Digit(g[2]) + 2 * Digit(g[3]) + Digit(g[4]))
  }

  function CharBits(c: char): (g: seq<bool>)
    requires InAlphabet(c)
    ensures |g| == 5
  {
    var n := IndexOf(c);
    [n >= 16, n % 16 >= 8, n % 8 >= 4, n % 4 >= 2, n % 2 == 1]
  }

  lemma FiveDigits(a: bool, b: bool, c: bool, d: bool, e: bool, n: int)
    requires n == 16 * Digit(a) + 8 * Digit(b) + 4 * Digit(c) + 2 * Digit(d) + Digit(e)
    ensures a == (n >= 16) && b == (n % 16 >= 8) && c == (n % 8 >= 4) && d == (n % 4 >= 2) && e == (n % 2 == 1)
  {
  }

  lemma CharBitsOfCharOf(g: seq<bool>)
    requires |g| == 5
    ensures CharBits(CharOf(g)) == g
  {
    FiveDigits(g[0], g[1], g[2], g[3], g[4], IndexOf(CharOf(g)));
  }

  lemma DigitsOfIndex(n: int)
    requires 0 <= n < 32
    ensures 16 * Digit(n >= 16) + 8 * Digit(n % 16 >= 8) + 4 * Digit(n % 8 >= 4)
      + 2 * Digit(n % 4 >= 2) + Digit(n % 2 == 1) == n
  {
  }

  lemma CharOfCharBits(c: char)
    requires InAlphabet(c)
    ensures CharOf(CharBits(c)) == c
  {
    CharAtIndex(c);
    DigitsOfIndex(IndexOf(c));
  }

  predicate AllInAlphabet(s: string) {
    forall i :: 0 <= i < |s| ==> InAlphabet(s[i])
  }

  /** Groups of five bits as characters. */
  function CharsOf(bits: seq<bool>): (s: string)
    requires |bits| % 5 == 0
    ensures |s| == |bits| / 5 && AllInAlphabet(s)
  {
    seq(|bits| / 5, i requires 0 <= i < |bits| / 5 => CharOf(bits[5 * i..5 * i + 5]))
  }

  /** Characters as groups of five bits. */
  function BitsOfChars(s: string): (bits: seq<bool>)
    requires AllInAlphabet(s)
    ensures |bits| == 5 * |s|
  {
    seq(5 * |s|, k requires 0 <= k < 5 * |s| => CharBits(s[k / 5])[k % 5])
  }

  lemma BitOfChars(bits: seq<bool>, k: int)
    requires |bits| % 5 == 0 && 0 <= k < |bits|
    ensures BitsOfChars(CharsOf(bits))[k] == bits[k]
  {
    var i := k / 5;
    var g := bits[5 * i..5 * i + 5];
    assert CharsOf(bits)[i] == CharOf(g);
    CharBitsOfCharOf(g);
    assert g[k % 5] == bits[k];
  }

  lemma BitsOfCharsOf(bits: seq<bool>)
    requires |bits| % 5 == 0
    ensures BitsOfChars(CharsOf(bits)) == bits
  {
    forall k | 0 <= k < |bits| ensures BitsOfChars(CharsOf(bits))[k] == bits[k] {
      BitOfChars(bits, k);
    }
  }

  lemma GroupOfChars(s: string, i: int)
    requires AllInAlphabet(s) && 0 <= i < |s|
    ensures BitsOfChars(s)[5 * i..5 * i + 5] == CharBits(s[i])
  {
    forall k | 0 <= k < 5 ensures BitsOfChars(s)[5 * i + k] == CharBits(s[i])[k] {
      assert (5 * i + k) / 5 == i && (5 * i + k) % 5 == k;
    }
  }

  lemma CharsOfBitsOf(s: string)
    requires AllInAlphabet(s)
    ensures CharsOf(BitsOfChars(s)) == s
  {
    forall i | 0 <= i < |s| ensures CharsOf(BitsOfChars(s))[i] == s[i] {
      GroupOfChars(s, i);
      CharOfCharBits(s[i]);
    }
  }

  /** How many bits are missing in the last group of five. */
  function Spare(n: nat): (r: nat)
    ensures r < 5 && (n + r) % 5 == 0
  {
    (5 - n % 5) % 5
  }

  /** How many characters are missing in the last group of eight. */
  function Fill(n: nat): (r: nat)
    ensures r < 8 && (n + r) % 8 == 0
  {
    (8 - n % 8) % 8
  }

  /** The characters that carry data. */
  function Body(data: seq<byte>): (s: string)
    ensures AllInAlphabet(s)
  {
    CharsOf(BitsOf(data) + Zeros(Spare(8 * |data|)))
  }

  function Padding(n: nat): (s: string)
    ensures |s| == n
  {
    seq(n, _ => '=')
  }

  /** Groups of five bits, the last one filled up with zero bits, the text filled up with '=' to a multiple of eight. */
  function Encode(data: seq<byte>): (s: string)
    ensures |s| % 8 == 0
  {
    Body(data) + Padding(Fill(|Body(data)|))
  }

  /** How many '=' stand at the end. */
  function Pads(s: string): (n: nat)
    ensures n <= |s|
    ensures forall i :: |s| - n <= i < |s| ==> s[i] == '='
    ensures n < |s| ==> s[|s| - n - 1] != '='
  {
    if s == [] || s[|s| - 1] != '=' then 0 else 1 + Pads(s[..|s| - 1])
  }

  /** The bytes of one line of text, or nothing if it is not an encoding. The bits after the last whole byte are not
      looked at. */
  function DecodeLine(s: string): (r: Option<seq<byte>>)
  {
    var n := Pads(s);
    var body := s[..|s| - n];
    if |s| % 8 == 0 && n in {0, 1, 3, 4, 6} && AllInAlphabet(body) then Some(BytesOf(BitsOfChars(body))) else None
  }

  lemma {:induction false} PadsOf(body: string, n: nat)
    requires AllInAlphabet(body)
    ensures Pads(body + Padding(n)) == n
  {
    var s := body + Padding(n);
    if n == 0 {
      assert s == body;
    } else {
      assert s[..|s| - 1] == body + Padding(n - 1);
      PadsOf(body, n - 1);
    }
  }

  /** Encodings have 0, 6, 4, 3 or 1 characters of padding. */
  lemma PadCount(n: nat, b: nat)
    requires 5 * b == 8 * n + Spare(8 * n)
    ensures Fill(b) in {0, 1, 3, 4, 6}
  {
    var q, r := n / 5, n % 5;
    assert 8 * n == 40 * q + 8 * r;
  }

  /** Every string of bytes comes back from its encoding. */
  lemma LineOfEncode(data: seq<byte>)
    ensures DecodeLine(Encode(data)) == Some(data)
  {
    var extra := Zeros(Spare(8 * |data|));
    var body := Body(data);
    PadCount(|data|, |body|);
    PadsOf(body, Fill(|body|));
    assert Encode(data)[..|body|] == body;
    BitsOfCharsOf(BitsOf(data) + extra);
    BytesOfBits(data, extra);
  }

  /** The characters of a text before its padding. */
  function Chars(s: string): string {
    s[..|s| - Pads(s)]
  }

  lemma Remainder(bits: nat, d: nat, r: nat)
    requires bits == 8 * d + r && r < 5
    ensures bits / 8 == d && bits % 8 == r
  {
  }

  lemma LeftOverOf(q: nat, r: nat, n: nat)
    requires r < 8 && (r + n) % 8 == 0 && n in {0, 1, 3, 4, 6}
    ensures var bits := 5 * (8 * q + r); Spare(8 * (bits / 8)) == bits % 8
  {
    var bits := 5 * (8 * q + r);
    if r == 0 {
      Remainder(bits, 5 * q, 0);
    } else if r == 2 {
      Remainder(bits, 5 * q + 1, 2);
    } else if r == 4 {
      Remainder(bits, 5 * q + 2, 4);
    } else if r == 5 {
      Remainder(bits, 5 * q + 3, 1);
    } else {
      Remainder(bits, 5 * q + 4, 3);
    }
  }

  lemma LeftOver(b: nat, n: nat)
    requires (b + n) % 8 == 0 && n in {0, 1, 3, 4, 6}
    ensures Spare(8 * (5 * b / 8)) == 5 * b % 8 && Fill(b) == n
  {
    var q, r := b / 8, b % 8;
    assert b == 8 * q + r;
    LeftOverOf(q, r, n);
  }

  /** The bits that Decode drops at the end of the last character. */
  function Dropped(s: string): seq<bool>
    requires AllInAlphabet(Chars(s))
  {
    var bits := BitsOfChars(Chars(s));
    bits[8 * (|bits| / 8)..]
  }

  lemma PaddingText(s: string)
    ensures s == Chars(s) + Padding(Pads(s))
  {
  }

  lemma Refilled(s: string, data: seq<byte>)
    requires DecodeLine(s) == Some(data)
    ensures BitsOf(data) + Dropped(s) == BitsOfChars(Chars(s))
    ensures Spare(8 * |data|) == |Dropped(s)| < 5 && Fill(|Chars(s)|) == Pads(s)
  {
    var bits := BitsOfChars(Chars(s));
    BitsOfBytes(bits);
    LeftOver(|Chars(s)|, Pads(s));
  }

  lemma WholeGroups(chars: nat, bytes: nat, d: nat)
    requires chars % 8 == 0 && 5 * chars == 8 * bytes + d && d < 8
    ensures d == 0
  {
    var q := chars / 8;
    assert chars == 8 * q;
    assert d == 8 * (5 * q - bytes);
  }

  lemma UnpaddedDropsNothing(s: string, data: seq<byte>)
    requires DecodeLine(s) == Some(data) && Pads(s) == 0
    ensures Dropped(s) == []
  {
    Refilled(s, data);
    assert |BitsOf(data) + Dropped(s)| == 8 * |data| + |Dropped(s)|;
    WholeGroups(|s|, |data|, |Dropped(s)|);
  }

  /** A text that can be decoded is the encoding of what it decodes to if and only if the dropped bits are zero. */
  lemma EncodeOfLine(s: string, data: seq<byte>)
    requires DecodeLine(s) == Some(data)
    ensures Encode(data) == s <==> Dropped(s) == Zeros(|Dropped(s)|)
  {
    var bits := BitsOfChars(Chars(s));
    Refilled(s, data);
    PaddingText(s);
    if Dropped(s) == Zeros(|Dropped(s)|) {
      CharsOfBitsOf(Chars(s));
    }
    if Encode(data) == s {
      PadsOf(Body(data), Fill(|Body(data)|));
      assert Encode(data)[..|Body(data)|] == Body(data);
      BitsOfCharsOf(BitsOf(data) + Zeros(Spare(8 * |data|)));
      assert (BitsOf(data) + Dropped(s))[|BitsOf(data)|..] == Dropped(s);
      assert (BitsOf(data) + Zeros(|Dropped(s)|))[|BitsOf(data)|..] == Zeros(|Dropped(s)|);
    }
  }

  // ----- replacing a character -----

  /** c agrees with character i wherever the bits are not dropped; n bits are kept. */
  predicate AgreesOnKept(s: string, i: nat, c: char, n: nat)
    requires i < |s| && InAlphabet(s[i]) && InAlphabet(c)
  {
    forall k :: 0 <= k < 5 && 5 * i + k < n ==> CharBits(s[i])[k] == CharBits(c)[k]
  }

  lemma ReplacedText(s: string, i: nat, c: char)
    requires AllInAlphabet(Chars(s)) && i < |Chars(s)| && InAlphabet(c)
    ensures Pads(s[i := c]) == Pads(s) && Chars(s[i := c]) == Chars(s)[i := c]
  {
    PaddingText(s);
    var body := Chars(s)[i := c];
    assert s[i := c] == body + Padding(Pads(s));
    PadsOf(body, Pads(s));
  }

  lemma BitOfByteOfChars(body: string, k: nat)
    requires AllInAlphabet(body) && k < 8 * (5 * |body| / 8)
    ensures BitsOf(BytesOf(BitsOfChars(body)))[k] == CharBits(body[k / 5])[k % 5]
  {
    BitOfBytes(BitsOfChars(body), k);
  }

  /** Bytes whose bits are those of two texts that differ in one character are the same if the characters agree. */
  lemma SameWhenAgreed(s: string, data: seq<byte>, changed: seq<byte>, i: nat, c: char)
    requires AllInAlphabet(Chars(s)) && i < |Chars(s)| && InAlphabet(c)
    requires |changed| == |data| && 8 * |data| <= 5 * |Chars(s)|
    requires forall k :: 0 <= k < 8 * |data| ==> BitsOf(data)[k] == CharBits(Chars(s)[k / 5])[k % 5]
    requires forall k :: 0 <= k < 8 * |data| ==> BitsOf(changed)[k] == CharBits(Chars(s)[i := c][k / 5])[k % 5]
    ensures changed == data <==> AgreesOnKept(s, i, c, 8 * |data|)
  {
    if AgreesOnKept(s, i, c, 8 * |data|) {
      assert BitsOf(changed) == BitsOf(data);
      BitsInjective(changed, data);
    }
    if changed == data {
      forall k | 0 <= k < 5 && 5 * i + k < 8 * |data|
        ensures CharBits(s[i])[k] == CharBits(c)[k]
      {
        assert (5 * i + k) / 5 == i && (5 * i + k) % 5 == k;
        assert BitsOf(data)[5 * i + k] == CharBits(Chars(s)[i])[k];
        assert BitsOf(changed)[5 * i + k] == CharBits(c)[k];
      }
    }
  }

  lemma BitsOfTheBytes(body: string, data: seq<byte>)
    requires AllInAlphabet(body) && data == BytesOf(BitsOfChars(body))
    ensures 8 * |data| <= 5 * |body|
    ensures forall k :: 0 <= k < 8 * |data| ==> BitsOf(data)[k] == CharBits(body[k / 5])[k % 5]
  {
    forall k | 0 <= k < 8 * |data| ensures BitsOf(data)[k] == CharBits(body[k / 5])[k % 5] {
      BitOfByteOfChars(body, k);
    }
  }

  lemma ReplacedDecodes(s: string, i: nat, c: char)
    requires DecodeLine(s).Some? && i < |Chars(s)| && InAlphabet(c)
    ensures AllInAlphabet(Chars(s)[i := c]) && DecodeLine(s[i := c]) == Some(BytesOf(BitsOfChars(Chars(s)[i := c])))
  {
    ReplacedText(s, i, c);
  }

  /** Outside the five bits of the character nothing changes. */
  lemma SameOutside(body: string, data: seq<byte>, changed: seq<byte>, i: nat, c: char)
    requires AllInAlphabet(body) && i < |body| && InAlphabet(c) && |changed| == |data| && 8 * |data| <= 5 * |body|
    requires forall k :: 0 <= k < 8 * |data| ==> BitsOf(data)[k] == CharBits(body[k / 5])[k % 5]
    requires forall k :: 0 <= k < 8 * |data| ==> BitsOf(changed)[k] == CharBits(body[i := c][k / 5])[k % 5]
    ensures forall k :: 0 <= k < 8 * |data| && !(5 * i <= k < 5 * i + 5) ==> BitsOf(changed)[k] == BitsOf(data)[k]
  {
    forall k | 0 <= k < 8 * |data| && !(5 * i <= k < 5 * i + 5)
      ensures BitsOf(changed)[k] == BitsOf(data)[k]
    {
      assert k / 5 != i;
    }
  }

  /** The bytes behind a text, and how long they are. */
  lemma BytesBehind(s: string, data: seq<byte>)
    requires DecodeLine(s) == Some(data)
    ensures AllInAlphabet(Chars(s)) && |data| == 5 * |Chars(s)| / 8
    ensures 8 * |data| <= 5 * |Chars(s)|
    ensures forall k :: 0 <= k < 8 * |data| ==> BitsOf(data)[k] == CharBits(Chars(s)[k / 5])[k % 5]
  {
    BitsOfTheBytes(Chars(s), data);
  }

  /** Replacing a character leaves a text of the same length that can be decoded. Only the five bits of the character
      can change, and the bytes stay the same exactly when the characters agree on the bits that are kept. */
  lemma ReplaceChar(s: string, data: seq<byte>, i: nat, c: char) returns (changed: seq<byte>)
    requires DecodeLine(s) == Some(data) && i < |Chars(s)| && InAlphabet(c)
    ensures InAlphabet(s[i]) && DecodeLine(s[i := c]) == Some(changed) && |changed| == |data|
    ensures forall k :: 0 <= k < 8 * |data| && !(5 * i <= k < 5 * i + 5) ==> BitsOf(changed)[k] == BitsOf(data)[k]
    ensures changed == data <==> AgreesOnKept(s, i, c, 8 * |data|)
  {
    assert s[i] == Chars(s)[i] && InAlphabet(Chars(s)[i]);
    ReplacedDecodes(s, i, c);
    changed := DecodeLine(s[i := c]).value;
    ReplacedText(s, i, c);
    BytesBehind(s, data);
    BytesBehind(s[i := c], changed);
    SameOutside(Chars(s), data, changed, i, c);
    SameWhenAgreed(s, data, changed, i, c);
  }

  lemma SameCharBits(a: char, b: char)
    requires InAlphabet(a) && InAlphabet(b) && CharBits(a) == CharBits(b)
    ensures a == b
  {
    CharOfCharBits(a);
    CharOfCharBits(b);
  }

  lemma WholeBytes(chars: nat, bytes: nat)
    requires bytes % 5 == 0 && 0 <= 5 * chars - 8 * bytes < 5
    ensures 5 * chars == 8 * bytes
  {
    var q := bytes / 5;
    assert bytes == 5 * q;
  }

  /** When the number of bytes is a multiple of five every bit is kept, so no two characters agree. */
  lemma AllKept(s: string, data: seq<byte>, i: nat, c: char)
    requires DecodeLine(s) == Some(data) && |data| % 5 == 0 && i < |Chars(s)| && InAlphabet(c) && c != s[i]
    ensures InAlphabet(s[i]) && !AgreesOnKept(s, i, c, 8 * |data|)
  {
    Refilled(s, data);
    assert |BitsOf(data) + Dropped(s)| == 8 * |data| + |Dropped(s)|;
    WholeBytes(|Chars(s)|, |data|);
    if AgreesOnKept(s, i, c, 8 * |data|) {
      assert forall k :: 0 <= k < 5 ==> CharBits(s[i])[k] == CharBits(c)[k];
      SameCharBits(s[i], c);
    }
  }

  lemma FirstBit(body: string, data: seq<byte>, k: nat)
    requires AllInAlphabet(body) && |data| == 5 * |body| / 8 && |data| > 0 && k < 5
    requires BitsOf(data)[k] == CharBits(body[k / 5])[k % 5]
    ensures ByteBits(data[0])[k] == CharBits(body[0])[k]
  {
  }

  /** The first character holds the first five bits of the first byte. */
  lemma FirstCharBits(s: string, data: seq<byte>)
    requires DecodeLine(s) == Some(data) && data != []
    ensures s != "" && InAlphabet(s[0]) && ByteBits(data[0])[..5] == CharBits(s[0])
  {
    var bits := ByteBits(data[0])[..5];
    var body := Chars(s);
    assert |body| > 0;
    forall k | 0 <= k < 5 ensures bits[k] == CharBits(body[0])[k] {
      BitOfByteOfChars(body, k);
      FirstBit(body, data, k);
    }
    assert bits[0] == CharBits(body[0])[0];
  }

  // ----- line breaks -----

  predicate IsLineBreak(c: char) {
    c == '\r' || c == '\n'
  }

  predicate OneLine(s: string) {
    forall i :: 0 <= i < |s| ==> !IsLineBreak(s[i])
  }

  /** The text without its line breaks. */
  function Strip(s: string): (t: string)
    ensures |t| <= |s| && OneLine(t)
  {
    if s == "" then ""
    else
      var rest := Strip(s[..|s| - 1]);
      if IsLineBreak(s[|s| - 1]) then rest else rest + [s[|s| - 1]]
  }

  lemma {:induction false} StripOneLine(s: string)
    requires OneLine(s)
    ensures Strip(s) == s
  {
    if s == "" {
    } else {
      StripOneLine(s[..|s| - 1]);
      assert s == s[..|s| - 1] + [s[|s| - 1]];
    }
  }

  lemma {:induction false} StripFirst(s: string)
    requires s != "" && !IsLineBreak(s[0])
    ensures Strip(s) != "" && Strip(s)[0] == s[0]
  {
    if |s| == 1 {
      assert s[..0] == "";
    } else {
      StripFirst(s[..|s| - 1]);
    }
  }

  /** The library's decoder passes over line breaks, wherever they are. */
  function Decode(s: string): (r: Option<seq<byte>>) {
    DecodeLine(Strip(s))
  }

  lemma {:induction false} StripConcat(a: string, b: string)
    ensures Strip(a + b) == Strip(a) + Strip(b)
    decreases b
  {
    if b == "" {
      assert a + b == a;
    } else {
      assert (a + b)[..|a + b| - 1] == a + b[..|b| - 1];
      StripConcat(a, b[..|b| - 1]);
    }
  }

  /** A line break can be put in anywhere without changing what is read. */
  lemma LineBreaksIgnored(a: string, c: char, b: string)
    requires c == '\n' || c == '\r'
    ensures Decode(a + [c] + b) == Decode(a + b)
  {
    StripConcat(a, [c]);
    StripConcat(a + [c], b);
    StripConcat(a, b);
    assert [c][..0] == "";
    assert Strip([c]) == "";
  }

  lemma EncodeIsOneLine(data: seq<byte>)
    ensures OneLine(Encode(data)) && Strip(Encode(data)) == Encode(data)
  {
    var body, s := Body(data), Encode(data);
    forall i | 0 <= i < |s| ensures !IsLineBreak(s[i]) {
      if i < |body| {
        assert s[i] == body[i] && InAlphabet(body[i]);
      }
    }
    StripOneLine(s);
  }

  /** Every string of bytes comes back from its encoding. */
  lemma DecodeEncode(data: seq<byte>)
    ensures Decode(Encode(data)) == Some(data) == DecodeLine(Encode(data))
  {
    EncodeIsOneLine(data);
    LineOfEncode(data);
  }

  /** A text that can be decoded is the encoding of what it decodes to if and only if it has no line breaks and the
      dropped bits are zero. */
  lemma EncodeDecode(s: string, data: seq<byte>)
    requires Decode(s) == Some(data)
    ensures Encode(data) == s <==> OneLine(s) && Dropped(Strip(s)) == Zeros(|Dropped(Strip(s))|)
  {
    EncodeOfLine(Strip(s), data);
    EncodeIsOneLine(data);
    if OneLine(s) {
      StripOneLine(s);
    }
  }

  lemma ReplacedIsOneLine(s: string, i: nat, c: char)
    requires OneLine(s) && i < |s| && InAlphabet(c)
    ensures OneLine(s[i := c]) && Strip(s[i := c]) == s[i := c]
  {
    StripOneLine(s[i := c]);
  }
}
