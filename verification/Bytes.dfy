/** Bytes, and little-endian fields among them. */
module Bytes {
  import opened Common

  type byte = x: int | 0 <= x < 256

  function LeByte(val: nat, i: nat): byte
    requires i < 4
  {
    match i
    case 0 => val % 256
    case 1 => val / 0x100 % 256
    case 2 => val / 0x1_0000 % 256
    case _ => val / 0x100_0000 % 256
  }

  function Le16(v: nat): (s: seq<byte>)
    ensures |s| == 2
  {
    [LeByte(v, 0), LeByte(v, 1)]
  }

  function Le32(v: nat): (s: seq<byte>)
    ensures |s| == 4
  {
    [LeByte(v, 0), LeByte(v, 1), LeByte(v, 2), LeByte(v, 3)]
  }

  function Get16(s: seq<byte>, p: nat): nat
    requires p + 2 <= |s|
  {
    s[p] as int + 0x100 * (s[p + 1] as int)
  }

  function Get32(s: seq<byte>, p: nat): nat
    requires p + 4 <= |s|
  {
    s[p] as int + 0x100 * (s[p + 1] as int) + 0x1_0000 * (s[p + 2] as int) + 0x100_0000 * (s[p + 3] as int)
  }

  /** `bytes` stand in `s` at position `p`. */
  predicate StandsAt(s: seq<byte>, p: nat, bytes: seq<byte>) {
    p + |bytes| <= |s| && s[p..p + |bytes|] == bytes
  }

  lemma StandsParts(s: seq<byte>, p: nat, a: seq<byte>, b: seq<byte>)
    requires StandsAt(s, p, a + b)
    ensures StandsAt(s, p, a) && StandsAt(s, p + |a|, b)
  {
    assert s[p..p + |a|] == (a + b)[..|a|];
    assert s[p + |a|..p + |a| + |b|] == (a + b)[|a|..];
  }

  lemma StandsByte(s: seq<byte>, p: nat, bytes: seq<byte>, i: nat)
    requires StandsAt(s, p, bytes) && i < |bytes|
    ensures s[p + i] == bytes[i]
  {
    assert s[p..p + |bytes|][i] == bytes[i];
  }

  lemma Field16(s: seq<byte>, p: nat, v: nat)
    requires StandsAt(s, p, Le16(v)) && v < TWO_16
    ensures Get16(s, p) == v
  {
    StandsByte(s, p, Le16(v), 0);
    StandsByte(s, p, Le16(v), 1);
  }

  lemma LeWord(v: nat)
    requires v < TWO_32
    ensures LeByte(v, 0) as int + 0x100 * (LeByte(v, 1) as int) + 0x1_0000 * (LeByte(v, 2) as int)
            + 0x100_0000 * (LeByte(v, 3) as int) == v
  {
    var a := v / 0x100;
    var b := a / 0x100;
    assert v / 0x1_0000 == b;
    assert v / 0x100_0000 == b / 0x100 < 0x100;
  }

  lemma Field32(s: seq<byte>, p: nat, v: nat)
    requires StandsAt(s, p, Le32(v)) && v < TWO_32
    ensures Get32(s, p) == v
  {
    StandsByte(s, p, Le32(v), 0);
    StandsByte(s, p, Le32(v), 1);
    StandsByte(s, p, Le32(v), 2);
    StandsByte(s, p, Le32(v), 3);
    LeWord(v);
  }

  function Zeros(n: nat): (s: seq<byte>)
    ensures |s| == n
  {
    seq<byte>(n, _ => 0)
  }

  /** `s` written over `was` from position `at` on. */
  function Overwritten(was: seq<byte>, at: nat, s: seq<byte>): (now: seq<byte>)
    requires at + |s| <= |was|
    ensures |now| == |was|
  {
    was[..at] + s + was[at + |s|..]
  }
}
