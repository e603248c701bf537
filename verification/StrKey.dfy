/** The key strings of strkey/main.go: a version byte, a payload and a checksum, in base 32. */
module StrKey {
  import Base32
  import opened Bits
  import opened Crc16
  import opened Wrappers

  const VERSION_ACCOUNT_ID: byte := 24
  const VERSION_SEED: byte := 144
  const VERSION_HASH_TX: byte := 152
  const VERSION_HASH_X: byte := 184

  predicate ValidVersion(v: byte) {
    v == VERSION_ACCOUNT_ID || v == VERSION_SEED || v == VERSION_HASH_TX || v == VERSION_HASH_X
  }

  datatype KeyError = InvalidVersionByte | NotBase32 | TooShort | InvalidChecksum

  /** The bytes behind a key: version and payload, then the checksum of both. */
  function Raw(version: byte, payload: seq<byte>): seq<byte> {
    [version] + payload + Stored(Crc([version] + payload))
  }

  /** The text of a key. */
  function Encoded(version: byte, payload: seq<byte>): Result<string, KeyError> {
    if ValidVersion(version) then Ok(Base32.Encode(Raw(version, payload))) else Err(InvalidVersionByte)
  }

  method CheckValidVersionByte(version: byte) returns (ok: bool)
    ensures ok <==> ValidVersion(version)
    ensures ok <==> version in {3 << 3, 18 << 3, 19 << 3, 23 << 3}
  {
    if version == VERSION_ACCOUNT_ID {
      return true;
    }
    if version == VERSION_SEED {
      return true;
    }
    if version == VERSION_HASH_TX {
      return true;
    }
    if version == VERSION_HASH_X {
      return true;
    }
    return false;
  }

  method Encode(version: byte, src: seq<byte>) returns (r: Result<string, KeyError>)
    ensures r == Encoded(version, src)
  {
    var ok := CheckValidVersionByte(version);
    if !ok {
      return Err(InvalidVersionByte);
    }
    var raw := [version];
    raw := raw + src;
    var checksum := Checksum(raw);
    raw := raw + checksum;
    return Ok(Base32.Encode(raw));
  }

  /** The bytes of a text that is long enough to hold a version and a checksum. */
  function DecodedString(src: string): (r: Result<seq<byte>, KeyError>)
    ensures r.Ok? ==> |r.value| >= 3
  {
    match Base32.Decode(src)
    case None => Err(NotBase32)
    case Some(raw) => if |raw| < 3 then Err(TooShort) else Ok(raw)
  }

  /** Whether the last two bytes are the checksum of the others. */
  predicate Consistent(raw: seq<byte>)
    requires |raw| >= 2
  {
    raw[|raw| - 2..] == Stored(Crc(raw[..|raw| - 2]))
  }

  /** What a text means to a reader who expects a version. */
  function Decoded(expected: byte, src: string): (r: Result<seq<byte>, KeyError>) {
    if !ValidVersion(expected) then Err(InvalidVersionByte)
    else match DecodedString(src)
      case Err(e) => Err(e)
      case Ok(raw) =>
        if raw[0] != expected then Err(InvalidVersionByte)
        else if !Consistent(raw) then Err(InvalidChecksum)
        else Ok(raw[1..|raw| - 2])
  }

  method Decode(expected: byte, src: string) returns (r: Result<seq<byte>, KeyError>)
    ensures r == Decoded(expected, src)
  {
    var ok := CheckValidVersionByte(expected);
    if !ok {
      return Err(InvalidVersionByte);
    }
    var s := DecodedString(src);
    if s.Err? {
      return s;
    }
    var raw := s.value;
    var version := raw[0];
    var vp := raw[..|raw| - 2];
    var payload := raw[1..|raw| - 2];
    var checksum := raw[|raw| - 2..];
    if version != expected {
      return Err(InvalidVersionByte);
    }
    var valid := Validate(vp, checksum);
    assert valid <==> Consistent(raw);
    if !valid {
      return Err(InvalidChecksum);
    }
    return Ok(payload);
  }

  /** The version a text claims, whatever its checksum. */
  function Version(src: string): (r: Result<byte, KeyError>) {
    match DecodedString(src)
    case Err(e) => Err(e)
    case Ok(raw) => Ok(raw[0])
  }

  lemma RawParts(version: byte, payload: seq<byte>)
    ensures var raw := Raw(version, payload);
      |raw| == |payload| + 3 && raw[0] == version && raw[1..|raw| - 2] == payload && Consistent(raw)
  {
    var raw := Raw(version, payload);
    assert raw[..|raw| - 2] == [version] + payload;
  }

  /** Whether a text is the wrong kind of key is found out before its checksum is looked at: so a text of another
      version gives the version error even if it is damaged, and a checksum error is about a text of the right
      version. */
  lemma VersionBeforeChecksum(expected: byte, s: string)
    requires ValidVersion(expected)
    ensures Decoded(expected, s) == Err(NotBase32) <==> Base32.Decode(s).None?
    ensures Decoded(expected, s) == Err(TooShort) <==> Base32.Decode(s).Some? && |Base32.Decode(s).value| <= 2
    ensures Decoded(expected, s) == Err(InvalidVersionByte) <==> Version(s).Ok? && Version(s).value != expected
    ensures Decoded(expected, s) == Err(InvalidChecksum) <==>
      Version(s) == Ok(expected) && forall payload :: Base32.Decode(s) != Some(Raw(expected, payload))
  {
    if DecodedString(s).Ok? {
      var raw := DecodedString(s).value;
      if Consistent(raw) {
        RawOfParts(raw);
      }
      forall payload | raw == Raw(expected, payload) ensures Consistent(raw) {
        RawParts(expected, payload);
      }
    }
  }

  /** A key can be read back under its own version and under no other. */
  lemma RoundTrip(version: byte, payload: seq<byte>, expected: byte)
    requires ValidVersion(version)
    ensures Encoded(version, payload).Ok?
    ensures Decoded(expected, Encoded(version, payload).value)
         == if expected == version then Ok(payload) else Err(InvalidVersionByte)
    ensures Version(Encoded(version, payload).value) == Ok(version)
  {
    RawParts(version, payload);
    Base32.DecodeEncode(Raw(version, payload));
  }

  lemma RawOfParts(raw: seq<byte>)
    requires |raw| >= 3 && Consistent(raw)
    ensures Raw(raw[0], raw[1..|raw| - 2]) == raw
  {
    var n := |raw| - 2;
    assert raw[..n] == [raw[0]] + raw[1..n];
    assert raw == raw[..n] + raw[n..];
  }

  lemma DecodedRaw(expected: byte, s: string, payload: seq<byte>)
    requires Decoded(expected, s) == Ok(payload)
    ensures ValidVersion(expected) && Base32.Decode(s) == Some(Raw(expected, payload))
  {
    RawOfParts(DecodedString(s).value);
  }

  /** A text that can be read is the key of what was read if, and only if, it has no line breaks and the bits that the
      reader drops are zero. A text without padding has no such bits. */
  lemma ReadableIsEncoded(expected: byte, s: string, payload: seq<byte>)
    requires Decoded(expected, s) == Ok(payload)
    ensures ValidVersion(expected) && Base32.Decode(s) == Some(Raw(expected, payload))
    ensures var line := Base32.Strip(s);
      Encoded(expected, payload) == Ok(s)
      <==> Base32.OneLine(s) && Base32.Dropped(line) == Zeros(|Base32.Dropped(line)|)
    ensures Base32.OneLine(s) && Base32.Pads(s) == 0 ==> Encoded(expected, payload) == Ok(s)
  {
    DecodedRaw(expected, s, payload);
    Base32.EncodeDecode(s, Raw(expected, payload));
    if Base32.OneLine(s) && Base32.Pads(s) == 0 {
      Base32.StripOneLine(s);
      Base32.UnpaddedDropsNothing(s, Raw(expected, payload));
    }
  }

  // ----- first letters -----

  /** The letter that the keys of a version begin with. */
  function Letter(version: byte): (c: char)
    ensures Base32.InAlphabet(c)
  {
    if version == VERSION_ACCOUNT_ID then 'D' else if version == VERSION_SEED then 'S'
    else if version == VERSION_HASH_TX then 'T' else 'X'
  }

  lemma LetterBits(version: byte)
    requires ValidVersion(version)
    ensures ByteBits(version)[..5] == Base32.CharBits(Letter(version))
  {
    var b, l := ByteBits(version)[..5], Base32.CharBits(Letter(version));
    assert b[0] == l[0] && b[1] == l[1] && b[2] == l[2] && b[3] == l[3] && b[4] == l[4];
  }

  /** A text that can be read under a version begins with the letter of the version, after any line breaks. */
  lemma FirstLetter(expected: byte, s: string)
    requires Decoded(expected, s).Ok?
    ensures Base32.Strip(s) != "" && Base32.Strip(s)[0] == Letter(expected)
    ensures s != "" && (Base32.IsLineBreak(s[0]) || s[0] == Letter(expected))
  {
    var raw := DecodedString(s).value;
    Base32.FirstCharBits(Base32.Strip(s), raw);
    LetterBits(expected);
    Base32.SameCharBits(Base32.Strip(s)[0], Letter(expected));
    if !Base32.IsLineBreak(s[0]) {
      Base32.StripFirst(s);
    }
  }

  /** keypair.Parse: a text is an address, or else a seed. */
  predicate Parses(s: string) {
    Decoded(VERSION_ACCOUNT_ID, s).Ok?
    || (Decoded(VERSION_ACCOUNT_ID, s) == Err(InvalidVersionByte) && Decoded(VERSION_SEED, s).Ok?)
  }

  /** What parses is what holds an address or a seed with its checksum. */
  lemma ParsesExactlyWhen(s: string)
    ensures Parses(s) <==>
      exists version, payload :: version in {VERSION_ACCOUNT_ID, VERSION_SEED}
        && Base32.Decode(s) == Some(Raw(version, payload))
  {
    if Parses(s) {
      var version := if Decoded(VERSION_ACCOUNT_ID, s).Ok? then VERSION_ACCOUNT_ID else VERSION_SEED;
      DecodedRaw(version, s, Decoded(version, s).value);
    }
    forall version, payload | version in {VERSION_ACCOUNT_ID, VERSION_SEED}
      && Base32.Decode(s) == Some(Raw(version, payload))
      ensures Parses(s)
    {
      RawParts(version, payload);
    }
  }

  /** The bridge asks for an address or seed that begins with 'G'. There is none, so that it accepts no key at all. */
  lemma NoKeyBeginsWithG(s: string)
    requires Parses(s)
    ensures s != "" && s[0] != 'G'
  {
    if Decoded(VERSION_ACCOUNT_ID, s).Ok? {
      FirstLetter(VERSION_ACCOUNT_ID, s);
    } else {
      FirstLetter(VERSION_SEED, s);
    }
  }
}
