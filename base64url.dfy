/** The URL-safe base64 encoding with padding ("base64url", section 5 of
    RFC 4648), as Go's `base64.URLEncoding.EncodeToString` produces it,
    together with the matching strict decoder. */
module Base64Url {
  import opened Wrappers

  type byte = x: int | 0 <= x < 0x100

  const PadChar: char := '='

  /** The 64 characters of the alphabet of RFC 4648, section 5, table 2. */
  predicate IsUrlSafe(c: char) {
    ('A' <= c <= 'Z') || ('a' <= c <= 'z') || ('0' <= c <= '9') || c == '-' || c == '_'
  }

  /** The character that encodes the 6-bit value v. */
  function SextetChar(v: int): (c: char)
    requires 0 <= v < 64
    ensures IsUrlSafe(c)
    ensures SextetValue(c) == Some(v)
  {
    if v < 26 then ('A' as int + v) as char
    else if v < 52 then ('a' as int + (v - 26)) as char
    else if v < 62 then ('0' as int + (v - 52)) as char
    else if v == 62 then '-'
    else '_'
  }

  /** The 6-bit value a character of the alphabet stands for, or None for
      any other character (the padding character included). */
  function SextetValue(c: char): (r: Option<int>)
    ensures r.Some? <==> IsUrlSafe(c)
    ensures r.Some? ==> 0 <= r.value < 64
  {
    if 'A' <= c <= 'Z' then Some(c as int - 'A' as int)
    else if 'a' <= c <= 'z' then Some(c as int - 'a' as int + 26)
    else if '0' <= c <= '9' then Some(c as int - '0' as int + 52)
    else if c == '-' then Some(62)
    else if c == '_' then Some(63)
    else None
  }

  /** Three bytes become four characters. */
  function EncodeTriple(b0: byte, b1: byte, b2: byte): string {
    [SextetChar(b0 / 4), SextetChar((b0 % 4) * 16 + b1 / 16),
     SextetChar((b1 % 16) * 4 + b2 / 64), SextetChar(b2 % 64)]
  }

  /** A final group of two bytes: three characters and one padding character. */
  function EncodePair(b0: byte, b1: byte): string {
    [SextetChar(b0 / 4), SextetChar((b0 % 4) * 16 + b1 / 16),
     SextetChar((b1 % 16) * 4), PadChar]
  }

  /** A final group of one byte: two characters and two padding characters. */
  function EncodeSingle(b0: byte): string {
    [SextetChar(b0 / 4), SextetChar((b0 % 4) * 16), PadChar, PadChar]
  }

  /** The number of padding characters at the end of the encoding of n bytes. */
  function PadLength(n: nat): nat {
    (3 - n % 3) % 3
  }

  function Encode(b: seq<byte>): (s: string)
    ensures |s| == 4 * ((|b| + 2) / 3)
    decreases |b|
  {
    if |b| >= 3 then
      assert (|b| + 2) / 3 == (|b| - 3 + 2) / 3 + 1;
      EncodeTriple(b[0], b[1], b[2]) + Encode(b[3..])
    else if |b| == 2 then EncodePair(b[0], b[1])
    else if |b| == 1 then EncodeSingle(b[0])
    else []
  }

  /** A full group in front of the rest. */
  lemma EncodeCons(b: seq<byte>)
    requires |b| >= 3
    ensures Encode(b) == EncodeTriple(b[0], b[1], b[2]) + Encode(b[3..])
  {
  }

  /** Four characters of the alphabet become three bytes. */
  function DecodeQuad(c0: char, c1: char, c2: char, c3: char): Option<seq<byte>> {
    match (SextetValue(c0), SextetValue(c1), SextetValue(c2), SextetValue(c3))
    case (Some(v0), Some(v1), Some(v2), Some(v3)) =>
      Some([v0 * 4 + v1 / 16, (v1 % 16) * 16 + v2 / 4, (v2 % 4) * 64 + v3])
    case _ => None
  }

  /** The last group of four characters, which may end in one or two padding
      characters; the bits a padded group leaves unused must be zero. */
  function DecodeLast(c0: char, c1: char, c2: char, c3: char): Option<seq<byte>> {
    if c2 == PadChar && c3 == PadChar then
      match (SextetValue(c0), SextetValue(c1))
      case (Some(v0), Some(v1)) => if v1 % 16 == 0 then Some([v0 * 4 + v1 / 16]) else None
      case _ => None
    else if c3 == PadChar then
      match (SextetValue(c0), SextetValue(c1), SextetValue(c2))
      case (Some(v0), Some(v1), Some(v2)) =>
        if v2 % 4 == 0 then Some([v0 * 4 + v1 / 16, (v1 % 16) * 16 + v2 / 4]) else None
      case _ => None
    else DecodeQuad(c0, c1, c2, c3)
  }

  /** Strict decoder: the length is a multiple of four and padding appears
      only in the last group. */
  function Decode(s: string): Option<seq<byte>>
    decreases |s|
  {
    if |s| == 0 then Some([])
    else if |s| < 4 then None
    else if |s| == 4 then DecodeLast(s[0], s[1], s[2], s[3])
    else match DecodeQuad(s[0], s[1], s[2], s[3])
      case None => None
      case Some(g) =>
        match Decode(s[4..])
        case None => None
        case Some(rest) => Some(g + rest)
  }

  lemma TripleRoundTrip(b0: byte, b1: byte, b2: byte)
    ensures DecodeQuad(EncodeTriple(b0, b1, b2)[0], EncodeTriple(b0, b1, b2)[1],
                       EncodeTriple(b0, b1, b2)[2], EncodeTriple(b0, b1, b2)[3]) == Some([b0, b1, b2])
  {
    var v1 := (b0 % 4) * 16 + b1 / 16;
    var v2 := (b1 % 16) * 4 + b2 / 64;
    assert v1 / 16 == b0 % 4 && v1 % 16 == b1 / 16;
    assert v2 / 4 == b1 % 16 && v2 % 4 == b2 / 64;
  }

  lemma PairRoundTrip(b0: byte, b1: byte)
    ensures DecodeLast(EncodePair(b0, b1)[0], EncodePair(b0, b1)[1],
                       EncodePair(b0, b1)[2], EncodePair(b0, b1)[3]) == Some([b0, b1])
  {
    var v1 := (b0 % 4) * 16 + b1 / 16;
    var v2 := (b1 % 16) * 4;
    assert v1 / 16 == b0 % 4 && v1 % 16 == b1 / 16;
    assert v2 / 4 == b1 % 16 && v2 % 4 == 0;
  }

  lemma SingleRoundTrip(b0: byte)
    ensures DecodeLast(EncodeSingle(b0)[0], EncodeSingle(b0)[1],
                       EncodeSingle(b0)[2], EncodeSingle(b0)[3]) == Some([b0])
  {
    var v1 := (b0 % 4) * 16;
    assert v1 / 16 == b0 % 4 && v1 % 16 == 0;
  }

  /** Decoding undoes encoding, so the encoding loses no information. */
  lemma {:induction false} DecodeEncode(b: seq<byte>)
    ensures Decode(Encode(b)) == Some(b)
    decreases |b|
  {
    if |b| > 3 {
      DecodeEncode(b[3..]);
      DecodeEncodeStep(b);
    } else if |b| == 3 {
      TripleRoundTrip(b[0], b[1], b[2]);
      assert b == [b[0], b[1], b[2]];
    } else if |b| == 2 {
      PairRoundTrip(b[0], b[1]);
      assert b == [b[0], b[1]];
    } else if |b| == 1 {
      SingleRoundTrip(b[0]);
      assert b == [b[0]];
    }
  }

  /** One full group in front of a longer encoding. */
  lemma DecodeEncodeStep(b: seq<byte>)
    requires |b| > 3
    requires Decode(Encode(b[3..])) == Some(b[3..])
    ensures Decode(Encode(b)) == Some(b)
  {
    var x: seq<byte> := [b[0], b[1], b[2]];
    SplitGroup(b);
    var g := EncodeTriple(b[0], b[1], b[2]);
    var rest := Encode(b[3..]);
    EncodeCons(b);
    TripleRoundTrip(b[0], b[1], b[2]);
    DecodeAppend(g, rest, x, b[3..]);
  }

  lemma SplitGroup(b: seq<byte>)
    requires |b| >= 3
    ensures b == [b[0], b[1], b[2]] + b[3..]
  {
    assert b[..3] == [b[0], b[1], b[2]];
    assert b == b[..3] + b[3..];
  }

  /** Decoding a full group followed by a non-empty encoding. */
  lemma DecodeAppend(g: string, rest: string, x: seq<byte>, y: seq<byte>)
    requires |g| == 4 && |rest| >= 4
    requires DecodeQuad(g[0], g[1], g[2], g[3]) == Some(x)
    requires Decode(rest) == Some(y)
    ensures Decode(g + rest) == Some(x + y)
  {
    var s := g + rest;
    assert s[0] == g[0] && s[1] == g[1] && s[2] == g[2] && s[3] == g[3];
    assert s[4..] == rest;
  }

  lemma PadLengthOfRest(n: nat)
    requires n >= 3
    ensures PadLength(n - 3) == PadLength(n)
  {
    assert (n - 3) % 3 == n % 3;
  }

  /** Every character of an encoding before its padding is in the alphabet. */
  lemma {:induction false} EncodeAlphabet(b: seq<byte>)
    ensures forall i | 0 <= i < |Encode(b)| - PadLength(|b|) :: IsUrlSafe(Encode(b)[i])
    decreases |b|
  {
    var s := Encode(b);
    if |b| >= 3 {
      EncodeAlphabet(b[3..]);
      var rest := Encode(b[3..]);
      EncodeCons(b);
      PadLengthOfRest(|b|);
      forall i | 4 <= i < |s| ensures s[i] == rest[i - 4] { }
    }
  }

  /** The padding characters all stand at the end of an encoding. */
  lemma {:induction false} EncodePadding(b: seq<byte>)
    ensures forall i | |Encode(b)| - PadLength(|b|) <= i < |Encode(b)| :: Encode(b)[i] == PadChar
    decreases |b|
  {
    var s := Encode(b);
    if |b| >= 3 {
      EncodePadding(b[3..]);
      var rest := Encode(b[3..]);
      EncodeCons(b);
      PadLengthOfRest(|b|);
      forall i | 4 <= i < |s| ensures s[i] == rest[i - 4] { }
    }
  }

  /** The character a value was decoded from is the one that encodes it. */
  lemma SextetCharOfValue(c: char)
    requires SextetValue(c).Some?
    ensures SextetChar(SextetValue(c).value) == c
  {
  }

  /** The three bytes four sextets stand for encode back to those sextets. */
  lemma TripleOfSextets(v0: int, v1: int, v2: int, v3: int)
    requires 0 <= v0 < 64 && 0 <= v1 < 64 && 0 <= v2 < 64 && 0 <= v3 < 64
    ensures var b0, b1, b2 := v0 * 4 + v1 / 16, (v1 % 16) * 16 + v2 / 4, (v2 % 4) * 64 + v3;
      && 0 <= b0 < 256 && 0 <= b1 < 256 && 0 <= b2 < 256
      && b0 / 4 == v0 && (b0 % 4) * 16 + b1 / 16 == v1
      && (b1 % 16) * 4 + b2 / 64 == v2 && b2 % 64 == v3
      && EncodeTriple(b0, b1, b2) == [SextetChar(v0), SextetChar(v1), SextetChar(v2), SextetChar(v3)]
  {
  }

  /** A full group that decodes is the encoding of its three bytes. */
  lemma QuadCanonical(c0: char, c1: char, c2: char, c3: char)
    requires DecodeQuad(c0, c1, c2, c3).Some?
    ensures var b := DecodeQuad(c0, c1, c2, c3).value;
      |b| == 3 && EncodeTriple(b[0], b[1], b[2]) == [c0, c1, c2, c3]
  {
    var v0, v1, v2, v3 := SextetValue(c0).value, SextetValue(c1).value, SextetValue(c2).value, SextetValue(c3).value;
    SextetCharOfValue(c0);
    SextetCharOfValue(c1);
    SextetCharOfValue(c2);
    SextetCharOfValue(c3);
    TripleOfSextets(v0, v1, v2, v3);
    var b0, b1, b2 := v0 * 4 + v1 / 16, (v1 % 16) * 16 + v2 / 4, (v2 % 4) * 64 + v3;
    var b := DecodeQuad(c0, c1, c2, c3).value;
    assert b == [b0, b1, b2];
    assert b[0] == b0 && b[1] == b1 && b[2] == b2;
    assert [SextetChar(v0), SextetChar(v1), SextetChar(v2), SextetChar(v3)] == [c0, c1, c2, c3];
  }

  /** A final group that decodes is the encoding of its bytes. */
  lemma LastCanonical(c0: char, c1: char, c2: char, c3: char)
    requires DecodeLast(c0, c1, c2, c3).Some?
    ensures Encode(DecodeLast(c0, c1, c2, c3).value) == [c0, c1, c2, c3]
  {
    var b := DecodeLast(c0, c1, c2, c3).value;
    SextetCharOfValue(c0);
    SextetCharOfValue(c1);
    var v0, v1 := SextetValue(c0).value, SextetValue(c1).value;
    if c2 == PadChar && c3 == PadChar {
      SingleOfSextets(v0, v1);
      var b0 := v0 * 4 + v1 / 16;
      assert b == [b0];
      assert Encode(b) == EncodeSingle(b0);
      assert [SextetChar(v0), SextetChar(v1), PadChar, PadChar] == [c0, c1, c2, c3];
    } else if c3 == PadChar {
      SextetCharOfValue(c2);
      var v2 := SextetValue(c2).value;
      PairOfSextets(v0, v1, v2);
      var b0, b1 := v0 * 4 + v1 / 16, (v1 % 16) * 16 + v2 / 4;
      assert b == [b0, b1];
      assert Encode(b) == EncodePair(b0, b1);
      assert [SextetChar(v0), SextetChar(v1), SextetChar(v2), PadChar] == [c0, c1, c2, c3];
    } else {
      QuadCanonical(c0, c1, c2, c3);
      EncodeCons(b);
      assert b[3..] == [];
      assert Encode(b) == EncodeTriple(b[0], b[1], b[2]);
    }
  }

  /** The byte one padded group stands for encodes back to its sextets. */
  lemma SingleOfSextets(v0: int, v1: int)
    requires 0 <= v0 < 64 && 0 <= v1 < 64 && v1 % 16 == 0
    ensures var b0 := v0 * 4 + v1 / 16;
      0 <= b0 < 256 && EncodeSingle(b0) == [SextetChar(v0), SextetChar(v1), PadChar, PadChar]
  {
    var b0 := v0 * 4 + v1 / 16;
    assert b0 / 4 == v0 && (b0 % 4) * 16 == v1;
  }

  /** The two bytes a group with one padding character stands for encode
      back to its sextets. */
  lemma PairOfSextets(v0: int, v1: int, v2: int)
    requires 0 <= v0 < 64 && 0 <= v1 < 64 && 0 <= v2 < 64 && v2 % 4 == 0
    ensures var b0, b1 := v0 * 4 + v1 / 16, (v1 % 16) * 16 + v2 / 4;
      && 0 <= b0 < 256 && 0 <= b1 < 256
      && EncodePair(b0, b1) == [SextetChar(v0), SextetChar(v1), SextetChar(v2), PadChar]
  {
    var b0, b1 := v0 * 4 + v1 / 16, (v1 % 16) * 16 + v2 / 4;
    assert b0 / 4 == v0 && b0 % 4 == v1 / 16;
    assert b1 / 16 == v1 % 16 && (b1 % 16) * 4 == v2;
  }

  /** Decoding accepts exactly one string for each byte string: whatever
      decodes is the encoding of what it decodes to. With DecodeEncode, the
      encoder and the decoder are inverse bijections. */
  lemma {:induction false} DecodeCanonical(s: string)
    ensures Decode(s).Some? ==> Encode(Decode(s).value) == s
    decreases |s|
  {
    if Decode(s).Some? {
      if |s| == 4 {
        LastCanonical(s[0], s[1], s[2], s[3]);
        assert s == [s[0], s[1], s[2], s[3]];
      } else if |s| > 4 {
        DecodeCanonical(s[4..]);
        DecodeCanonicalStep(s);
      }
    }
  }

  /** A full group in front of a canonical encoding is canonical. */
  lemma DecodeCanonicalStep(s: string)
    requires |s| > 4 && Decode(s).Some?
    requires Encode(Decode(s[4..]).value) == s[4..]
    ensures Encode(Decode(s).value) == s
  {
    var g := DecodeQuad(s[0], s[1], s[2], s[3]).value;
    var rest := Decode(s[4..]).value;
    assert Decode(s).value == g + rest;
    QuadCanonical(s[0], s[1], s[2], s[3]);
    EncodeAppendGroup(g, rest);
    SplitQuad(s);
  }

  lemma SplitQuad(s: string)
    requires |s| >= 4
    ensures s == [s[0], s[1], s[2], s[3]] + s[4..]
  {
    assert s[..4] == [s[0], s[1], s[2], s[3]];
    assert s == s[..4] + s[4..];
  }

  /** Three bytes in front of the rest encode as their group in front of
      the encoding of the rest. */
  lemma EncodeAppendGroup(g: seq<byte>, rest: seq<byte>)
    requires |g| == 3
    ensures Encode(g + rest) == EncodeTriple(g[0], g[1], g[2]) + Encode(rest)
  {
    var b := g + rest;
    EncodeCons(b);
    assert b[3..] == rest;
  }
}
