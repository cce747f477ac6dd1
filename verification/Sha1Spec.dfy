/** SHA-1 as FIPS 180-1 states it: padding (section 4), functions and constants (sections 5 and 6), and the
    computation of the digest (section 7). */
module Sha1Spec {
  import opened Common
  import opened Octets

  datatype Words = Words(a: bv32, b: bv32, c: bv32, d: bv32, e: bv32)

  const INITIAL := Words(0x67452301, 0xEFCDAB89, 0x98BADCFE, 0x10325476, 0xC3D2E1F0)

  // ----- Words

  function Rol1(x: bv32): bv32 { (x << 1) | (x >> 31) }

  function Rol5(x: bv32): bv32 { (x << 5) | (x >> 27) }

  function Rol30(x: bv32): bv32 { (x << 30) | (x >> 2) }

  function Choice(b: bv32, c: bv32, d: bv32): bv32 { (b & c) | (!b & d) }

  function Parity(b: bv32, c: bv32, d: bv32): bv32 { b ^ c ^ d }

  function Majority(b: bv32, c: bv32, d: bv32): bv32 { (b & c) | (b & d) | (c & d) }

  /** The logical functions of section 5. */
  function F(t: nat, b: bv32, c: bv32, d: bv32): bv32 {
    if t < 20 then Choice(b, c, d)
    else if t < 40 then Parity(b, c, d)
    else if t < 60 then Majority(b, c, d)
    else Parity(b, c, d)
  }

  /** The constants of section 6. */
  function Konst(t: nat): bv32 {
    if t < 20 then 0x5A827999 else if t < 40 then 0x6ED9EBA1 else if t < 60 then 0x8F1BBCDC else 0xCA62C1D6
  }

  /** Where they come from: they are 2^30 times the square roots of 2, 3, 5 and 10, rounded down. */
  lemma KonstIsRoot(t: nat)
    ensures var k, n := Konst(t) as int, if t < 20 then 2 else if t < 40 then 3 else if t < 60 then 5 else 10;
            k * k <= n * 0x1000_0000_0000_0000 < (k + 1) * (k + 1)
  {
    assert Konst(t) as int == if t < 20 then 0x5A827999 else if t < 40 then 0x6ED9EBA1
                              else if t < 60 then 0x8F1BBCDC else 0xCA62C1D6;
  }

  /** Four bytes as a word, most significant byte first. */
  function Word(b0: bv8, b1: bv8, b2: bv8, b3: bv8): bv32 {
    (b0 as bv32 << 24) | (b1 as bv32 << 16) | (b2 as bv32 << 8) | (b3 as bv32)
  }

  // ----- One block

  function W(block: seq<bv8>, t: nat): bv32
    requires |block| == 64
  {
    if t < 16 then Word(block[4 * t], block[4 * t + 1], block[4 * t + 2], block[4 * t + 3])
    else Rol1(W(block, t - 3) ^ W(block, t - 8) ^ W(block, t - 14) ^ W(block, t - 16))
  }

  function Total(a: bv32, f: bv32, e: bv32, w: bv32, k: bv32): bv32 { a + f + e + w + k }

  function Round(h: Words, t: nat, w: bv32): Words {
    Words(Total(Rol5(h.a), F(t, h.b, h.c, h.d), h.e, w, Konst(t)), h.a, Rol30(h.b), h.c, h.d)
  }

  function Rounds(h: Words, block: seq<bv8>, t: nat): Words
    requires |block| == 64
  {
    if t == 0 then h else Round(Rounds(h, block, t - 1), t - 1, W(block, t - 1))
  }

  function Sum(h: Words, k: Words): Words { Words(h.a + k.a, h.b + k.b, h.c + k.c, h.d + k.d, h.e + k.e) }

  function Transform(h: Words, block: seq<bv8>): Words
    requires |block| == 64
  {
    Sum(h, Rounds(h, block, 80))
  }

  // ----- Whole messages

  /** Block by block from the front; a rest of less than a block is left over. */
  function Fold(h: Words, s: seq<bv8>): Words
    decreases |s|
  {
    if |s| < 64 then h else Fold(Transform(h, s[..64]), s[64..])
  }

  function Zeros(n: nat): (s: seq<bv8>)
    ensures |s| == n
  {
    seq(n, _ => 0 as bv8)
  }

  function PadZeros(n: nat): (z: nat)
    ensures (n + 1 + z) % 64 == 56 && z < 64
  {
    (119 - n % 64) % 64
  }

  /** A 32-bit number, most significant byte first. */
  function Big32(v: nat): (s: seq<bv8>)
    ensures |s| == 4
  {
    [Octet(v / 0x100_0000), Octet(v / 0x1_0000), Octet(v / 0x100), Octet(v)]
  }

  /** The four bytes are the digits of the number to the base 256, and no two numbers share them. */
  lemma Big32Is(v: nat)
    requires v < TWO_32
    ensures var s := Big32(v);
            s[0] as int * 0x100_0000 + s[1] as int * 0x1_0000 + s[2] as int * 0x100 + s[3] as int == v
  {
    hide Octet;
    OctetIs(v / 0x100_0000);
    OctetIs(v / 0x1_0000);
    OctetIs(v / 0x100);
    OctetIs(v);
    DigitsOf(v);
  }

  lemma DigitsOf(v: nat)
    requires v < TWO_32
    ensures v / 0x100_0000 % 256 * 0x100_0000 + v / 0x1_0000 % 256 * 0x1_0000 + v / 0x100 % 256 * 0x100 + v % 256 == v
  {
    var a := v / 0x100;
    var b := a / 0x100;
    assert v / 0x1_0000 == b && v / 0x100_0000 == b / 0x100 < 0x100;
  }

  /** The length in bits as two words, the high one first. */
  function LengthField(bits: nat): (s: seq<bv8>)
    ensures |s| == 8
  {
    Big32(bits / TWO_32 % TWO_32) + Big32(bits % TWO_32)
  }

  /** Section 4. */
  function Padded(m: seq<bv8>): (s: seq<bv8>)
    ensures |s| == |m| + 9 + PadZeros(|m|)
  {
    m + [0x80] + Zeros(PadZeros(|m|)) + LengthField(8 * |m|)
  }

  function Digest(m: seq<bv8>): Words { Fold(INITIAL, Padded(m)) }

  /** Whole blocks in front do not have to be folded again. */
  lemma {:induction false} FoldSplit(h: Words, s: seq<bv8>, t: seq<bv8>)
    requires |s| % 64 == 0
    ensures Fold(h, s + t) == Fold(Fold(h, s), t)
    decreases |s|
  {
    hide Transform;
    if s == [] {
      assert s + t == t;
    } else {
      assert (s + t)[..64] == s[..64] && (s + t)[64..] == s[64..] + t;
      FoldSplit(Transform(h, s[..64]), s[64..], t);
    }
  }
}
