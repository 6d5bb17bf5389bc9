/** Derivation of the short key of a long URL: keyed BLAKE2b-256 over the
    bytes of the URL, base64url encoding of the digest, first ten characters. */
module KeyDerivation {
  import opened Base64Url

  /** Length of the short key ("blurb"). */
  const ShortenedLen: nat := 10

  /** The fixed key given to BLAKE2b. */
  const Salt: string := "Hey InfraCloud!"

  /** A BLAKE2b-256 digest. */
  type Digest = d: seq<byte> | |d| == 32 witness seq(32, _ => 0)

  /** Keyed BLAKE2b-256: (key, message) to a 32-byte digest. Its internals
      are not part of this model, so it is a parameter. */
  type KeyedHash = (seq<byte>, seq<byte>) -> Digest

  /** The UTF-8 bytes of one Unicode scalar value. */
  function CodePointBytes(c: char): (b: seq<byte>)
    ensures 1 <= |b| <= 4
    ensures |b| == 1 <==> (c as int) < 0x80
  {
    var n := c as int;
    if n < 0x80 then [n]
    else if n < 0x800 then [0xC0 + n / 0x40, 0x80 + n % 0x40]
    else if n < 0x1_0000 then [0xE0 + n / 0x1000, 0x80 + (n / 0x40) % 0x40, 0x80 + n % 0x40]
    else [0xF0 + n / 0x4_0000, 0x80 + (n / 0x1000) % 0x40, 0x80 + (n / 0x40) % 0x40, 0x80 + n % 0x40]
  }

  /** The UTF-8 bytes of a string (Go's `[]byte(s)`). */
  function Utf8(s: string): (b: seq<byte>)
    ensures |s| <= |b| <= 4 * |s|
  {
    if s == [] then [] else Utf8(s[..|s| - 1]) + CodePointBytes(s[|s| - 1])
  }

  /** The length of a UTF-8 sequence, read off its first byte. */
  function LeadLength(b: byte): nat {
    if b < 0x80 then 1 else if b < 0xE0 then 2 else if b < 0xF0 then 3 else 4
  }

  /** The scalar value a UTF-8 sequence of one to four bytes stands for. */
  function CodePointValue(b: seq<byte>): int
    requires 1 <= |b| <= 4
  {
    var x: seq<int> := b;
    if |x| == 1 then x[0]
    else if |x| == 2 then (x[0] - 0xC0) * 0x40 + (x[1] - 0x80)
    else if |x| == 3 then (x[0] - 0xE0) * 0x1000 + (x[1] - 0x80) * 0x40 + (x[2] - 0x80)
    else (x[0] - 0xF0) * 0x4_0000 + (x[1] - 0x80) * 0x1000 + (x[2] - 0x80) * 0x40 + (x[3] - 0x80)
  }

  /** The bytes of a character can be read back: the first byte tells how
      many there are, and together they give the character's value. */
  lemma CodePointDecodes(c: char)
    ensures LeadLength(CodePointBytes(c)[0]) == |CodePointBytes(c)|
    ensures CodePointValue(CodePointBytes(c)) == c as int
  {
    var n := c as int;
    if n >= 0x800 {
      var a := n / 0x40;
      assert n == a * 0x40 + n % 0x40;
      assert a == (a / 0x40) * 0x40 + a % 0x40;
      if n >= 0x1_0000 {
        var h := a / 0x40;
        assert h == (h / 0x40) * 0x40 + h % 0x40;
        assert h / 0x40 == n / 0x4_0000 && h % 0x40 == (n / 0x1000) % 0x40;
      } else {
        assert a / 0x40 == n / 0x1000;
      }
    }
  }

  /** Encoding a string front to back, one character at a time. */
  lemma {:induction false} Utf8Cons(c: char, s: string)
    ensures Utf8([c] + s) == CodePointBytes(c) + Utf8(s)
    decreases |s|
  {
    if s != [] {
      var init, last := s[..|s| - 1], s[|s| - 1];
      assert ([c] + s)[..|s|] == [c] + init;
      Utf8Cons(c, init);
    }
  }

  /** Two concatenations that agree and whose first parts have the same
      length agree part by part. */
  lemma SplitAt(a: seq<byte>, x: seq<byte>, b: seq<byte>, y: seq<byte>)
    requires a + x == b + y && |a| == |b|
    ensures a == b && x == y
  {
    assert a == (a + x)[..|a|] && b == (b + y)[..|b|];
    assert x == (a + x)[|a|..] && y == (b + y)[|b|..];
  }

  /** `[]byte(s)` loses nothing: different strings have different bytes, so
      different URLs are different messages to the hash. */
  lemma {:induction false} Utf8Injective(s1: string, s2: string)
    ensures Utf8(s1) == Utf8(s2) ==> s1 == s2
    decreases |s1|
  {
    if Utf8(s1) == Utf8(s2) && s1 != [] && s2 != [] {
      var c1, c2 := s1[0], s2[0];
      assert s1 == [c1] + s1[1..] && s2 == [c2] + s2[1..];
      Utf8Cons(c1, s1[1..]);
      Utf8Cons(c2, s2[1..]);
      var b1, b2 := CodePointBytes(c1), CodePointBytes(c2);
      CodePointDecodes(c1);
      CodePointDecodes(c2);
      assert b1[0] == Utf8(s1)[0] && b2[0] == Utf8(s2)[0];
      SplitAt(b1, Utf8(s1[1..]), b2, Utf8(s2[1..]));
      Utf8Injective(s1[1..], s2[1..]);
    }
  }

  /** The key that handlers.go derives for a URL: always ShortenedLen
      characters of the URL-safe alphabet, never a padding character. */
  function DeriveKey(blake2b: KeyedHash, url: string): (key: string)
    ensures |key| == ShortenedLen
    ensures forall i | 0 <= i < |key| :: IsUrlSafe(key[i])
    ensures PadChar !in key
  {
    var digest := blake2b(Utf8(Salt), Utf8(url));
    var encoded := Encode(digest);
    EncodeAlphabet(digest);
    assert |encoded| == 44 && PadLength(|digest|) == 1;
    encoded[..ShortenedLen]
  }

  /** The first ten characters come from the first 60 bits of the digest
      only (seven bytes and the high half of the eighth): the truncation
      keeps 60 of the 256 bits. */
  lemma KeyUsesDigestPrefix(d1: Digest, d2: Digest)
    requires d1[..7] == d2[..7] && d1[7] / 16 == d2[7] / 16
    ensures Encode(d1)[..ShortenedLen] == Encode(d2)[..ShortenedLen]
  {
    EncodePrefix(d1);
    EncodePrefix(d2);
    var p1, p2 := d1[..8], d2[..8];
    assert p1[..7] == d1[..7] && p2[..7] == d2[..7];
    assert forall i | 0 <= i < 7 :: p1[i] == p1[..7][i] && p2[i] == p2[..7][i];
    PrefixKeyUses60Bits(p1, p2);
  }

  lemma PrefixKeyUses60Bits(p1: seq<byte>, p2: seq<byte>)
    requires |p1| == 8 && |p2| == 8
    requires forall i | 0 <= i < 7 :: p1[i] == p2[i]
    requires p1[7] / 16 == p2[7] / 16
    ensures PrefixKey(p1) == PrefixKey(p2)
  {
    assert p1[0] == p2[0] && p1[1] == p2[1] && p1[2] == p2[2] && p1[3] == p2[3];
    assert p1[4] == p2[4] && p1[5] == p2[5] && p1[6] == p2[6];
  }

  /** The ten characters that eight bytes encode to. */
  function PrefixKey(p: seq<byte>): string
    requires |p| == 8
  {
    EncodeTriple(p[0], p[1], p[2]) + EncodeTriple(p[3], p[4], p[5])
    + [SextetChar(p[6] / 4), SextetChar((p[6] % 4) * 16 + p[7] / 16)]
  }

  /** The first ten characters of an encoding of at least nine bytes. */
  lemma EncodePrefix(b: seq<byte>)
    requires |b| >= 9
    ensures Encode(b)[..ShortenedLen] == PrefixKey(b[..8])
  {
    ThreeGroups(b);
    var p := b[..8];
    assert p[0] == b[0] && p[1] == b[1] && p[2] == b[2] && p[3] == b[3];
    assert p[4] == b[4] && p[5] == b[5] && p[6] == b[6] && p[7] == b[7];
    TwoOfTriple(b[6], b[7], b[8]);
  }

  /** The first ten characters are the first two groups and half the third. */
  lemma ThreeGroups(b: seq<byte>)
    requires |b| >= 9
    ensures Encode(b)[..ShortenedLen]
         == EncodeTriple(b[0], b[1], b[2]) + EncodeTriple(b[3], b[4], b[5])
            + EncodeTriple(b[6], b[7], b[8])[..2]
  {
    var b3 := b[3..];
    var b6 := b3[3..];
    EncodeCons(b);
    EncodeCons(b3);
    EncodeCons(b6);
    assert b3[0] == b[3] && b3[1] == b[4] && b3[2] == b[5];
    assert b6[0] == b[6] && b6[1] == b[7] && b6[2] == b[8];
    TenOfThreeGroups(EncodeTriple(b[0], b[1], b[2]), EncodeTriple(b[3], b[4], b[5]),
                     EncodeTriple(b[6], b[7], b[8]), Encode(b6[3..]));
  }

  /** The first two characters of a group depend on its first two bytes only. */
  lemma TwoOfTriple(b0: byte, b1: byte, b2: byte)
    ensures EncodeTriple(b0, b1, b2)[..2] == [SextetChar(b0 / 4), SextetChar((b0 % 4) * 16 + b1 / 16)]
  {
  }

  lemma TenOfThreeGroups(x: string, y: string, z: string, w: string)
    requires |x| == 4 && |y| == 4 && |z| == 4
    ensures (x + (y + (z + w)))[..ShortenedLen] == x + y + z[..2]
  {
    var s := x + (y + (z + w));
    forall i | 0 <= i < 10 ensures s[i] == (x + y + z[..2])[i] { }
  }
}
