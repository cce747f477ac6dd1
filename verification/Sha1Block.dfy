/** SHA1Transform of ext4_utils/sha1.c: sixteen words in a ring instead of eighty, bytes swapped on the way
    in, and cheaper forms of two of the functions. The unrolled rounds are written as a loop, and their
    renaming of the working variables as a parallel assignment. */
module Sha1Block {
  import opened Sha1Spec

  /** A word as it lies in memory on a little-endian machine. */
  function Raw(b0: bv8, b1: bv8, b2: bv8, b3: bv8): bv32 {
    (b0 as bv32) | (b1 as bv32 << 8) | (b2 as bv32 << 16) | (b3 as bv32 << 24)
  }

  /** blk0: rol by 24 and by 8, masked. */
  function Swapped(x: bv32): bv32 { (((x << 24) | (x >> 8)) & 0xFF00FF00) | (((x << 8) | (x >> 24)) & 0x00FF00FF) }

  lemma SwapIsBigEndian(b0: bv8, b1: bv8, b2: bv8, b3: bv8)
    ensures Swapped(Raw(b0, b1, b2, b3)) == Word(b0, b1, b2, b3)
  {
  }

  function CheapChoice(w: bv32, x: bv32, y: bv32): bv32 { (w & (x ^ y)) ^ y }

  function CheapMajority(w: bv32, x: bv32, y: bv32): bv32 { ((w | x) & y) | (w & x) }

  lemma ChoiceBits(w: bv32, x: bv32, y: bv32)
    ensures (w & (x ^ y)) ^ y == (w & x) | (!w & y)
  {
    hide *;
  }

  lemma MajorityBits(w: bv32, x: bv32, y: bv32)
    ensures ((w | x) & y) | (w & x) == (w & x) | (w & y) | (x & y)
  {
    hide *;
  }

  lemma SameChoice(w: bv32, x: bv32, y: bv32)
    ensures CheapChoice(w, x, y) == Choice(w, x, y)
  {
    ChoiceBits(w, x, y);
  }

  lemma SameMajority(w: bv32, x: bv32, y: bv32)
    ensures CheapMajority(w, x, y) == Majority(w, x, y)
  {
    MajorityBits(w, x, y);
  }

  /** The functions as the macros R0 to R4 write them. */
  function Mixed(t: nat, w: bv32, x: bv32, y: bv32): bv32 {
    if t < 20 then CheapChoice(w, x, y)
    else if t < 40 then Parity(w, x, y)
    else if t < 60 then CheapMajority(w, x, y)
    else Parity(w, x, y)
  }

  lemma MixedIsF(t: nat, w: bv32, x: bv32, y: bv32)
    ensures Mixed(t, w, x, y) == F(t, w, x, y)
  {
    hide Choice, Majority, Parity, CheapChoice, CheapMajority;
    SameChoice(w, x, y);
    SameMajority(w, x, y);
  }

  /** What the macros add to z. */
  function Added(z: bv32, f: bv32, w: bv32, k: bv32, v: bv32): bv32 { z + (f + w + k + v) }

  lemma SumOrder(a: bv32, f: bv32, e: bv32, w: bv32, k: bv32)
    ensures e + (f + w + k + a) == a + f + e + w + k
  {
    hide *;
  }

  lemma AddedIsTotal(a: bv32, f: bv32, e: bv32, w: bv32, k: bv32)
    ensures Added(e, f, w, k, a) == Total(a, f, e, w, k)
  {
    SumOrder(a, f, e, w, k);
  }

  /** The ring holds the last sixteen words of the schedule, and the raw words still to come. */
  ghost predicate RingAt(l: seq<bv32>, block: seq<bv8>, t: nat)
    requires |block| == 64
  {
    && |l| == 16
    && (forall s: nat | s < t <= s + 16 :: l[s % 16] == W(block, s))
    && (forall s: nat | t <= s < 16 :: l[s] == RawWord(block, s))
  }

  function RawWord(block: seq<bv8>, s: nat): bv32
    requires |block| == 64 && s < 16
  {
    Raw(block[4 * s], block[4 * s + 1], block[4 * s + 2], block[4 * s + 3])
  }

  /** blk0 and blk. */
  function NextWord(l: seq<bv32>, t: nat): bv32
    requires |l| == 16
  {
    if t < 16 then Swapped(l[t])
    else Rol1(l[(t + 13) % 16] ^ l[(t + 8) % 16] ^ l[(t + 2) % 16] ^ l[t % 16])
  }

  lemma RingApart(s: nat, t: nat)
    requires s < t < s + 16
    ensures s % 16 != t % 16
  {
  }

  lemma RingStep(l: seq<bv32>, block: seq<bv8>, t: nat)
    requires |block| == 64 && RingAt(l, block, t)
    ensures NextWord(l, t) == W(block, t) && RingAt(l[t % 16 := NextWord(l, t)], block, t + 1)
  {
    NextIsW(l, block, t);
    hide W, NextWord, RawWord;
    var now := l[t % 16 := NextWord(l, t)];
    forall s: nat | s < t + 1 <= s + 16 ensures now[s % 16] == W(block, s) {
      if s < t {
        RingApart(s, t);
        assert l[s % 16] == W(block, s);
      }
    }
    forall s: nat | t + 1 <= s < 16 ensures now[s] == RawWord(block, s) {
      assert t % 16 == t;
    }
  }

  lemma NextIsW(l: seq<bv32>, block: seq<bv8>, t: nat)
    requires |block| == 64 && RingAt(l, block, t)
    ensures NextWord(l, t) == W(block, t)
  {
    hide Rol1, Swapped, Word, Raw;
    if t < 16 {
      assert l[t] == RawWord(block, t);
      SwapIsBigEndian(block[4 * t], block[4 * t + 1], block[4 * t + 2], block[4 * t + 3]);
    } else {
      assert l[(t - 3) % 16] == W(block, t - 3);
      assert l[(t - 8) % 16] == W(block, t - 8);
      assert l[(t - 14) % 16] == W(block, t - 14);
      assert l[(t - 16) % 16] == W(block, t - 16);
      assert (t - 3) % 16 == (t + 13) % 16 && (t - 8) % 16 == (t + 8) % 16;
      assert (t - 14) % 16 == (t + 2) % 16 && (t - 16) % 16 == t % 16;
    }
  }

  lemma RoundIs(h: Words, t: nat, w: bv32)
    ensures Round(h, t, w) ==
            Words(Added(h.e, Mixed(t, h.b, h.c, h.d), w, Konst(t), Rol5(h.a)), h.a, Rol30(h.b), h.c, h.d)
  {
    hide F, Mixed, Rol5, Rol30, Konst, Added, Total;
    MixedIsF(t, h.b, h.c, h.d);
    AddedIsTotal(Rol5(h.a), Mixed(t, h.b, h.c, h.d), h.e, w, Konst(t));
  }

  lemma RingStarts(l: seq<bv32>, block: seq<bv8>)
    requires |block| == 64 && |l| == 16 && forall s | 0 <= s < 16 :: l[s] == RawWord(block, s)
    ensures RingAt(l, block, 0)
  {
  }

  lemma ConstantIs(t: nat)
    ensures Konst(t) == if t < 20 then 0x5A827999 else if t < 40 then 0x6ED9EBA1
                        else if t < 60 then 0x8F1BBCDC else 0xCA62C1D6
  {
  }

  lemma RotationsAre(x: bv32, y: bv32)
    ensures Rol5(x) == (x << 5) | (x >> 27) && Rol30(y) == (y << 30) | (y >> 2)
  {
  }

  /** SHA1Transform. */
  method TransformBlock(h: Words, buffer: seq<bv8>) returns (r: Words)
    requires |buffer| == 64
    ensures r == Transform(h, buffer)
  {
    hide W, NextWord, RawWord, Rol5, Rol30, Konst, Mixed, Round, RingAt, Added, Sum;
    var l := new bv32[16](s requires 0 <= s < 16 => RawWord(buffer, s));
    RingStarts(l[..], buffer);
    var a, b, c, d, e := h.a, h.b, h.c, h.d, h.e;
    for t := 0 to 80
      invariant RingAt(l[..], buffer, t) && Words(a, b, c, d, e) == Rounds(h, buffer, t)
    {
      RingStep(l[..], buffer, t);
      var w := NextWord(l[..], t);
      l[t % 16] := w;
      RoundIs(Words(a, b, c, d, e), t, w);
      ConstantIs(t);
      RotationsAre(a, b);
      var k := if t < 20 then 0x5A827999 else if t < 40 then 0x6ED9EBA1 else if t < 60 then 0x8F1BBCDC else 0xCA62C1D6;
      a, b, c, d, e := Added(e, Mixed(t, b, c, d), w, k, (a << 5) | (a >> 27)), a, (b << 30) | (b >> 2), c, d;
    }
    r := Sum(h, Words(a, b, c, d, e));
  }
}
