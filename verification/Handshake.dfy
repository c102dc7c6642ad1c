/** Conversions between bytes as numbers and bytes as bit-vectors, kept apart from everything else. */
module Bits {
  lemma Narrowed(b: int)
    requires 0 <= b < 256
    ensures (b as bv8) as int == b
  {
    if b < 16 {
    } else if b < 32 {
    } else if b < 64 {
    } else if b < 128 {
    } else {
    }
  }

  lemma Widened(b: bv8)
    ensures (b as int) as bv8 == b
  {
  }
}

/** The challenge transformation of the validation handshake and the byte image of a challenge. */
module Handshake {
  import Bits
  import opened Bytes

  const LOW_56_BITS: bv64 := 0x00FF_FFFF_FFFF_FFFF

  function Scramble(input: bv64): bv64 {
    var out := input ^ 0xDEADBEEFC0DECAFE;
    var swapped := ((out & 0xF0F0F0F0F0F0F0) >> 4) | ((out & 0x0F0F0F0F0F0F0F) << 4);
    swapped ^ 0xC0DEFACE12345678
  }

  /** Recovers the low 56 bits of the challenge a response answers. */
  function Unscramble(response: bv64): bv64 {
    var swapped := response ^ 0xC0DEFACE12345678;
    var out := ((swapped & 0xF0F0F0F0F0F0F0) >> 4) | ((swapped & 0x0F0F0F0F0F0F0F) << 4);
    (out ^ 0xDEADBEEFC0DECAFE) & LOW_56_BITS
  }

  lemma UnscrambleInverts(x: bv64)
    ensures Unscramble(Scramble(x)) == x & LOW_56_BITS
  {
  }

  function SwapNibbles(b: bv64): bv64 {
    ((b & 0xF0) >> 4) | ((b & 0x0F) << 4)
  }

  /** Byte by byte: each but the top one is mixed with a byte of the first constant, has its halves swapped and is mixed
      with a byte of the second; the top byte is that of the second constant. */
  lemma ScrambleByByte(x: bv64)
    ensures Scramble(x) & 0xFF == SwapNibbles((x & 0xFF) ^ 0xFE) ^ 0x78
    ensures (Scramble(x) >> 8) & 0xFF == SwapNibbles(((x >> 8) & 0xFF) ^ 0xCA) ^ 0x56
    ensures (Scramble(x) >> 16) & 0xFF == SwapNibbles(((x >> 16) & 0xFF) ^ 0xDE) ^ 0x34
    ensures (Scramble(x) >> 24) & 0xFF == SwapNibbles(((x >> 24) & 0xFF) ^ 0xC0) ^ 0x12
    ensures (Scramble(x) >> 32) & 0xFF == SwapNibbles(((x >> 32) & 0xFF) ^ 0xEF) ^ 0xCE
    ensures (Scramble(x) >> 40) & 0xFF == SwapNibbles(((x >> 40) & 0xFF) ^ 0xBE) ^ 0xFA
    ensures (Scramble(x) >> 48) & 0xFF == SwapNibbles(((x >> 48) & 0xFF) ^ 0xAD) ^ 0xDE
    ensures Scramble(x) >> 56 == 0xC0
  {
  }

  lemma ScrambleExamples()
    ensures Scramble(0) == 0xC004_1130_1ED9_FA97
    ensures Scramble(0x0123_4567_89AB_CDEF) == 0xC036_4546_8663_2669
  {
  }

  lemma ScrambleIgnoresTopByte(x: bv64)
    ensures Scramble(x & LOW_56_BITS) == Scramble(x)
  {
  }

  predicate SameLow56Bits(x: bv64, y: bv64) {
    x & LOW_56_BITS == y & LOW_56_BITS
  }

  lemma ScrambleCollides(x: bv64, y: bv64)
    ensures Scramble(x) == Scramble(y) <==> SameLow56Bits(x, y)
  {
    UnscrambleInverts(x);
    UnscrambleInverts(y);
    ScrambleIgnoresTopByte(x);
    ScrambleIgnoresTopByte(y);
  }

  lemma ScrambleRange(z: bv64)
    ensures (exists x :: Scramble(x) == z) <==> z & !LOW_56_BITS == 0xC000_0000_0000_0000
  {
    if z & !LOW_56_BITS == 0xC000_0000_0000_0000 {
      assert Scramble(Unscramble(z)) == z;
    }
  }

  function Octet(w: bv64): byte {
    ((w & 0xFF) as bv8) as int
  }

  function FromOctet(b: byte): bv64 {
    (b as bv8) as bv64
  }

  function Assemble(b0: bv64, b1: bv64, b2: bv64, b3: bv64, b4: bv64, b5: bv64, b6: bv64, b7: bv64): bv64 {
    b0 | (b1 << 8) | (b2 << 16) | (b3 << 24) | (b4 << 32) | (b5 << 40) | (b6 << 48) | (b7 << 56)
  }

  /** Memory image of a 64-bit challenge, low byte first. */
  function ChallengeBytes(w: bv64): (r: seq<byte>)
    ensures |r| == 8
  {
    [Octet(w), Octet(w >> 8), Octet(w >> 16), Octet(w >> 24),
     Octet(w >> 32), Octet(w >> 40), Octet(w >> 48), Octet(w >> 56)]
  }

  function ChallengeValue(s: seq<byte>): bv64
    requires |s| == 8
  {
    Assemble(FromOctet(s[0]), FromOctet(s[1]), FromOctet(s[2]), FromOctet(s[3]),
             FromOctet(s[4]), FromOctet(s[5]), FromOctet(s[6]), FromOctet(s[7]))
  }

  lemma OctetRoundTrip(w: bv64)
    ensures FromOctet(Octet(w)) == w & 0xFF
  {
    Bits.Widened((w & 0xFF) as bv8);
  }

  lemma Reassemble(w: bv64)
    ensures Assemble(w & 0xFF, (w >> 8) & 0xFF, (w >> 16) & 0xFF, (w >> 24) & 0xFF,
                     (w >> 32) & 0xFF, (w >> 40) & 0xFF, (w >> 48) & 0xFF, (w >> 56) & 0xFF) == w
  {
  }

  /** Octet `k` of a challenge's image is its `k`-th lowest byte. */
  lemma ImageOctets(w: bv64)
    ensures
      var s := ChallengeBytes(w);
      && FromOctet(s[0]) == w & 0xFF && FromOctet(s[1]) == (w >> 8) & 0xFF
      && FromOctet(s[2]) == (w >> 16) & 0xFF && FromOctet(s[3]) == (w >> 24) & 0xFF
      && FromOctet(s[4]) == (w >> 32) & 0xFF && FromOctet(s[5]) == (w >> 40) & 0xFF
      && FromOctet(s[6]) == (w >> 48) & 0xFF && FromOctet(s[7]) == (w >> 56) & 0xFF
  {
    var s := ChallengeBytes(w);
    assert FromOctet(s[0]) == w & 0xFF by { OctetRoundTrip(w); }
    assert FromOctet(s[1]) == (w >> 8) & 0xFF by { OctetRoundTrip(w >> 8); }
    assert FromOctet(s[2]) == (w >> 16) & 0xFF by { OctetRoundTrip(w >> 16); }
    assert FromOctet(s[3]) == (w >> 24) & 0xFF by { OctetRoundTrip(w >> 24); }
    assert FromOctet(s[4]) == (w >> 32) & 0xFF by { OctetRoundTrip(w >> 32); }
    assert FromOctet(s[5]) == (w >> 40) & 0xFF by { OctetRoundTrip(w >> 40); }
    assert FromOctet(s[6]) == (w >> 48) & 0xFF by { OctetRoundTrip(w >> 48); }
    assert FromOctet(s[7]) == (w >> 56) & 0xFF by { OctetRoundTrip(w >> 56); }
  }

  lemma ImageExample()
    ensures ChallengeBytes(0x0807_0605_0403_0201) == [1, 2, 3, 4, 5, 6, 7, 8]
  {
    OctetIs(0x0807_0605_0403_0201, 1);
    OctetIs(0x0807_0605_0403_0201 >> 8, 2);
    OctetIs(0x0807_0605_0403_0201 >> 16, 3);
    OctetIs(0x0807_0605_0403_0201 >> 24, 4);
    OctetIs(0x0807_0605_0403_0201 >> 32, 5);
    OctetIs(0x0807_0605_0403_0201 >> 40, 6);
    OctetIs(0x0807_0605_0403_0201 >> 48, 7);
    OctetIs(0x0807_0605_0403_0201 >> 56, 8);
  }

  lemma OctetIs(w: bv64, b: bv8)
    requires w & 0xFF == b as bv64
    ensures Octet(w) == b as int
  {
  }

  lemma ChallengeRoundTrip(w: bv64)
    ensures ChallengeValue(ChallengeBytes(w)) == w
  {
    ImageOctets(w);
    Reassemble(w);
  }

  lemma Widened(v: bv8)
    ensures Octet(v as bv64) == v as int
  {
    assert ((v as bv64) & 0xFF) as bv8 == v;
  }

  lemma ByteRoundTrip(b: byte)
    ensures Octet(FromOctet(b)) == b
  {
    Bits.Narrowed(b);
    Widened(b as bv8);
  }

  lemma Disassemble(b0: bv64, b1: bv64, b2: bv64, b3: bv64, b4: bv64, b5: bv64, b6: bv64, b7: bv64)
    requires b0 <= 0xFF && b1 <= 0xFF && b2 <= 0xFF && b3 <= 0xFF && b4 <= 0xFF && b5 <= 0xFF && b6 <= 0xFF &&
      b7 <= 0xFF
    ensures
      var w := Assemble(b0, b1, b2, b3, b4, b5, b6, b7);
      && w & 0xFF == b0 && (w >> 8) & 0xFF == b1 && (w >> 16) & 0xFF == b2 && (w >> 24) & 0xFF == b3
      && (w >> 32) & 0xFF == b4 && (w >> 40) & 0xFF == b5 && (w >> 48) & 0xFF == b6 && (w >> 56) & 0xFF == b7
  {
  }

  /** An octet is known by its low eight bits. */
  lemma OctetOf(w: bv64, b: byte)
    requires w & 0xFF == FromOctet(b)
    ensures Octet(w) == b
  {
    ByteRoundTrip(b);
    assert Octet(w) == Octet(FromOctet(b));
  }

  lemma LowOctets(w: bv64, s: seq<byte>)
    requires |s| == 8
    requires w & 0xFF == FromOctet(s[0]) && (w >> 8) & 0xFF == FromOctet(s[1])
    requires (w >> 16) & 0xFF == FromOctet(s[2]) && (w >> 24) & 0xFF == FromOctet(s[3])
    ensures Octet(w) == s[0] && Octet(w >> 8) == s[1] && Octet(w >> 16) == s[2] && Octet(w >> 24) == s[3]
  {
    OctetOf(w, s[0]);
    OctetOf(w >> 8, s[1]);
    OctetOf(w >> 16, s[2]);
    OctetOf(w >> 24, s[3]);
  }

  lemma HighOctets(w: bv64, s: seq<byte>)
    requires |s| == 8
    requires (w >> 32) & 0xFF == FromOctet(s[4]) && (w >> 40) & 0xFF == FromOctet(s[5])
    requires (w >> 48) & 0xFF == FromOctet(s[6]) && (w >> 56) & 0xFF == FromOctet(s[7])
    ensures Octet(w >> 32) == s[4] && Octet(w >> 40) == s[5] && Octet(w >> 48) == s[6] && Octet(w >> 56) == s[7]
  {
    OctetOf(w >> 32, s[4]);
    OctetOf(w >> 40, s[5]);
    OctetOf(w >> 48, s[6]);
    OctetOf(w >> 56, s[7]);
  }

  lemma OctetsOf(w: bv64, s: seq<byte>)
    requires |s| == 8
    requires
      && w & 0xFF == FromOctet(s[0]) && (w >> 8) & 0xFF == FromOctet(s[1])
      && (w >> 16) & 0xFF == FromOctet(s[2]) && (w >> 24) & 0xFF == FromOctet(s[3])
      && (w >> 32) & 0xFF == FromOctet(s[4]) && (w >> 40) & 0xFF == FromOctet(s[5])
      && (w >> 48) & 0xFF == FromOctet(s[6]) && (w >> 56) & 0xFF == FromOctet(s[7])
    ensures ChallengeBytes(w) == s
  {
    LowOctets(w, s);
    HighOctets(w, s);
  }

  lemma ImageRoundTrip(s: seq<byte>)
    requires |s| == 8
    ensures ChallengeBytes(ChallengeValue(s)) == s
  {
    assert forall b: byte {:trigger FromOctet(b)} :: FromOctet(b) <= 0xFF;
    Disassemble(FromOctet(s[0]), FromOctet(s[1]), FromOctet(s[2]), FromOctet(s[3]),
                FromOctet(s[4]), FromOctet(s[5]), FromOctet(s[6]), FromOctet(s[7]));
    OctetsOf(ChallengeValue(s), s);
  }
}
