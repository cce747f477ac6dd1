/** The streaming interface of ext4_utils/sha1.c: a context that takes the message in pieces. */
module Sha1 {
  import opened Common
  import opened Sha1Spec
  import opened Sha1Block

  const TWO_29: nat := 0x2000_0000

  // ----- The bit counter

  /** The two words of the counter after `len` more bytes. */
  function Counted(c0: nat, c1: nat, len: nat): (nat, nat) {
    var d0 := (c0 + 8 * len % TWO_32) % TWO_32;
    (d0, if d0 < c0 then (c1 + len / TWO_29 + 1) % TWO_32 else c1)
  }

  /** The counter grows by eight bits a byte exactly if the piece is shorter than 2^29 bytes or the low
      word runs over: otherwise the high bits of the length are dropped. */
  lemma CountsExactly(c0: nat, c1: nat, len: nat)
    requires c0 < TWO_32 && c1 < TWO_32 && len < TWO_32
    ensures var (d0, d1) := Counted(c0, c1, len);
            && d0 < TWO_32 && d1 < TWO_32
            && (d1 * TWO_32 + d0 == (c1 * TWO_32 + c0 + 8 * len) % TWO_64 <==> len < TWO_29 || d0 < c0)
  {
    BitsOf(len);
    var hi, lo := len / TWO_29, 8 * len % TWO_32;
    hide *;
    assert c1 * TWO_32 + c0 + 8 * len == (c1 + hi) * TWO_32 + (c0 + lo);
    CountedParts(c0, c1, len, hi, lo);
  }

  lemma BitsOf(len: nat)
    requires len < TWO_32
    ensures 8 * len == (len / TWO_29) * TWO_32 + 8 * len % TWO_32
    ensures len / TWO_29 < 8 && (len / TWO_29 == 0 <==> len < TWO_29)
  {
  }

  lemma CountedParts(c0: nat, c1: nat, len: nat, hi: nat, lo: nat)
    requires c0 < TWO_32 && c1 < TWO_32 && hi == len / TWO_29 < 8 && lo == 8 * len % TWO_32
    ensures var (d0, d1) := Counted(c0, c1, len);
            && d0 < TWO_32 && d1 < TWO_32
            && (d1 * TWO_32 + d0 == ((c1 + hi) * TWO_32 + (c0 + lo)) % TWO_64 <==> hi == 0 || d0 < c0)
  {
    var sum := c0 + lo;
    if sum >= TWO_32 {
      assert sum % TWO_32 == sum - TWO_32;
      CounterValue(c1 + hi + 1, sum - TWO_32);
    } else {
      CounterValue(c1 + hi, sum);
    }
  }

  /** An empty counter and a piece of 2^29 bytes: the counter stays empty. */
  lemma LongPieceExample()
    ensures Counted(0, 0, TWO_29) == (0, 0) && 8 * TWO_29 % TWO_64 == TWO_32
  {
  }

  lemma CounterValue(h: nat, l: nat)
    requires h < 2 * TWO_32 && l < TWO_32
    ensures (h * TWO_32 + l) % TWO_64 == (h % TWO_32) * TWO_32 + l
  {
  }

  /** What the counter says about a message of `n` bytes. */
  predicate CountIs(c0: nat, c1: nat, n: nat) {
    c0 < TWO_32 && c1 < TWO_32 && c1 * TWO_32 + c0 == 8 * n % TWO_64
  }

  /** The counter stays right when `len` bytes are added. */
  predicate CountFits(c0: nat, c1: nat, len: nat) {
    len < TWO_29 || (len < TWO_32 && Counted(c0, c1, len).0 < c0)
  }

  /** The test for a complete block, with the sum on 32 bits. */
  predicate FillsBlock(j: nat, len: nat) { (j + len) % TWO_32 > 63 }

  /** What SHA1Update asks of a piece: the counter counts it, and its end can be reckoned on 32 bits. */
  predicate PieceFits(c0: nat, c1: nat, len: nat) {
    CountFits(c0, c1, len) && c0 / 8 % 64 + len < TWO_32
  }

  /** That is exactly what is needed for the counter to grow by eight bits a byte and for the test to
      find the complete blocks. */
  lemma PieceFitsIff(c0: nat, c1: nat, len: nat)
    requires c0 < TWO_32 && c1 < TWO_32 && len < TWO_32
    ensures var (d0, d1) := Counted(c0, c1, len);
            PieceFits(c0, c1, len) <==>
            && d1 * TWO_32 + d0 == (c1 * TWO_32 + c0 + 8 * len) % TWO_64
            && (FillsBlock(c0 / 8 % 64, len) <==> c0 / 8 % 64 + len > 63)
  {
    CountsExactly(c0, c1, len);
    TestIsExact(c0 / 8 % 64, len);
    hide Counted, FillsBlock;
  }

  lemma TestIsExact(j: nat, len: nat)
    requires j < 64 && len < TWO_32
    ensures (FillsBlock(j, len) <==> j + len > 63) <==> j + len < TWO_32
  {
  }

  /** The end of a block within the piece does not wrap either. */
  predicate BlockEnds(i: nat, len: nat) { (i + 63) % TWO_32 < len }

  lemma BlockEndIsExact(j: nat, len: nat, i: nat)
    requires j + len < TWO_32 && i <= len && (j + i) % 64 == 0
    ensures BlockEnds(i, len) <==> i + 63 < len
  {
    assert j + i == 64 * ((j + i) / 64);
    assert i + 63 < TWO_32;
  }

  /** Sixty bytes and a piece of 2^32 - 10 more: the counter is right, but no block is found complete, and
      the piece is copied to place 60 of the 64-byte buffer. */
  lemma LongestPieceExample()
    ensures CountIs(480, 0, 60) && CountFits(480, 0, TWO_32 - 10) && !FillsBlock(60, TWO_32 - 10)
    ensures !PieceFits(480, 0, TWO_32 - 10)
  {
    assert 8 * (TWO_32 - 10) % TWO_32 == TWO_32 - 80;
  }

  lemma CountAdds(c0: nat, c1: nat, n: nat, len: nat)
    requires CountIs(c0, c1, n) && CountFits(c0, c1, len)
    ensures CountIs(Counted(c0, c1, len).0, Counted(c0, c1, len).1, n + len)
  {
    CountsExactly(c0, c1, len);
    var q := 8 * n / TWO_64;
    assert 8 * (n + len) == q * TWO_64 + (c1 * TWO_32 + c0 + 8 * len);
    ModDrop(q, c1 * TWO_32 + c0 + 8 * len);
  }

  lemma ModDrop(q: nat, x: nat)
    ensures (q * TWO_64 + x) % TWO_64 == x % TWO_64
  {
  }

  /** The low word gives the place in the block. */
  lemma CountPlace(c0: nat, c1: nat, n: nat)
    requires CountIs(c0, c1, n)
    ensures c0 / 8 % 64 == n % 64
  {
    var q := 8 * n / TWO_64;
    assert 8 * n == q * TWO_64 + c1 * TWO_32 + c0;
    PlaceIn(n, q * 0x80_0000_0000_0000 + c1 * 0x80_0000, c0);
  }

  lemma PlaceIn(n: nat, blocks: nat, c0: nat)
    requires 8 * n == 512 * blocks + c0
    ensures c0 / 8 % 64 == n % 64
  {
    assert c0 / 8 == n - 64 * blocks;
  }

  /** Both words give the length field. */
  lemma CountField(c0: nat, c1: nat, n: nat)
    requires CountIs(c0, c1, n)
    ensures Big32(c1) + Big32(c0) == LengthField(8 * n)
  {
    hide Big32;
    var q := 8 * n / TWO_64;
    WordsOf(q, c1, c0);
  }

  lemma WordsOf(q: nat, h: nat, l: nat)
    requires h < TWO_32 && l < TWO_32
    ensures var x := q * TWO_64 + h * TWO_32 + l; x / TWO_32 % TWO_32 == h && x % TWO_32 == l
  {
    var x := q * TWO_64 + h * TWO_32 + l;
    assert x == (q * TWO_32 + h) * TWO_32 + l;
    assert x / TWO_32 == q * TWO_32 + h;
  }

  // ----- Messages in pieces

  /** The bytes that do not fill a block yet. */
  function Tail(m: seq<bv8>): (t: seq<bv8>)
    ensures |t| == |m| % 64
  {
    m[|m| - |m| % 64..]
  }

  lemma FoldTail(h: Words, m: seq<bv8>, d: seq<bv8>)
    ensures Fold(h, m + d) == Fold(Fold(h, m), Tail(m) + d)
  {
    var whole := m[..|m| - |m| % 64];
    assert |whole| % 64 == 0;
    assert m == whole + Tail(m);
    FoldSplit(h, whole, Tail(m));
    assert m + d == whole + (Tail(m) + d);
    FoldSplit(h, whole, Tail(m) + d);
  }

  lemma TailOf(m: seq<bv8>, a: seq<bv8>, t: seq<bv8>)
    requires m == a + t && |a| % 64 == 0 && |t| < 64
    ensures Tail(m) == t
  {
  }

  // ----- Output

  /** A word, most significant byte first. */
  function BytesOf(w: bv32): (s: seq<bv8>)
    ensures |s| == 4
  {
    [((w >> 24) & 255) as bv8, ((w >> 16) & 255) as bv8, ((w >> 8) & 255) as bv8, (w & 255) as bv8]
  }

  function Output(h: Words): (s: seq<bv8>)
    ensures |s| == 20
  {
    BytesOf(h.a) + BytesOf(h.b) + BytesOf(h.c) + BytesOf(h.d) + BytesOf(h.e)
  }

  function Concat(pieces: seq<seq<bv8>>): seq<bv8> {
    if pieces == [] then [] else Concat(pieces[..|pieces| - 1]) + pieces[|pieces| - 1]
  }

  class Context {
    var state: Words
    var count0: nat
    var count1: nat
    var buffer: array<bv8>
    ghost var message: seq<bv8>

    ghost predicate Valid()
      reads this, buffer
    {
      && buffer.Length == 64 && CountIs(count0, count1, |message|)
      && state == Fold(INITIAL, message) && buffer[..|message| % 64] == Tail(message)
    }

    /** SHA1Init. */
    constructor ()
      ensures Valid() && message == [] && fresh(buffer)
    {
      state := Words(0x67452301, 0xEFCDAB89, 0x98BADCFE, 0x10325476, 0xC3D2E1F0);
      count0, count1, message := 0, 0, [];
      buffer := new bv8[64](_ => 0);
    }

    /** memcpy into the buffer. */
    method Copy(at: nat, s: seq<bv8>)
      requires buffer.Length == 64 && at + |s| <= 64
      modifies buffer
      ensures buffer[..] == old(buffer[..at]) + s + old(buffer[at + |s|..])
    {
      for i := 0 to |s|
        invariant forall k | 0 <= k < 64 :: buffer[k] == if at <= k < at + i then s[k - at] else old(buffer[k])
      {
        buffer[at + i] := s[i];
      }
    }

    /** The blocks that are complete with `data`; `i` bytes of it are used up. */
    method Absorb(data: seq<bv8>, j: nat) returns (i: nat)
      requires buffer.Length == 64 && j < 64 && j + |data| < TWO_32
      modifies this`state, buffer
      ensures state == Fold(old(state), old(buffer[..j]) + data)
      ensures if j + |data| > 63 then 0 < i <= |data| < i + 64 && (j + i) % 64 == 0
              else i == 0 && buffer[..] == old(buffer[..])
    {
      hide Fold, FillsBlock, BlockEnds;
      TestIsExact(j, |data|);
      ghost var tail, h := buffer[..j], state;
      if !FillsBlock(j, |data|) {
        NoBlock(state, tail + data);
        return 0;
      }
      i := 64 - j;
      Copy(j, data[..i]);
      assert buffer[..] == tail + data[..i];
      FirstBlock(h, tail, data);
      state := TransformBlock(state, buffer[..]);
      BlockEndIsExact(j, |data|, i);
      while BlockEnds(i, |data|)
        invariant 0 < i <= |data| && (j + i) % 64 == 0 && (BlockEnds(i, |data|) <==> i + 63 < |data|)
        invariant Fold(state, data[i..]) == Fold(h, tail + data)
        decreases |data| - i
      {
        NextBlock(state, data, i);
        state := TransformBlock(state, data[i..i + 64]);
        i := i + 64;
        BlockEndIsExact(j, |data|, i);
      }
      NoBlock(state, data[i..]);
    }

    /** SHA1Update behind the counter: the complete blocks, and the rest into the buffer. */
    method Take(data: seq<bv8>, place: nat, ghost m: seq<bv8>)
      requires buffer.Length == 64 && place == |m| % 64 && place + |data| < TWO_32 && buffer[..place] == Tail(m)
      modifies this`state, buffer
      ensures state == Fold(old(state), Tail(m) + data) && buffer[..|m + data| % 64] == Tail(m + data)
    {
      hide Fold, FillsBlock, Tail;
      TestIsExact(place, |data|);
      var i := Absorb(data, place);
      var j := if FillsBlock(place, |data|) then 0 else place;
      ghost var before := buffer[..j];
      Copy(j, data[i..]);
      NewTail(m, data, i, j, before, buffer[..]);
    }

    /** SHA1Update. */
    method Update(data: seq<bv8>)
      requires Valid() && PieceFits(count0, count1, |data|)
      modifies this, buffer
      ensures Valid() && message == old(message) + data && buffer == old(buffer)
    {
      hide Fold, Counted, CountIs, CountFits, Tail;
      CountPlace(count0, count1, |message|);
      CountAdds(count0, count1, |message|, |data|);
      var j := count0 / 8 % 64;
      var counts := Counted(count0, count1, |data|);
      count0, count1 := counts.0, counts.1;
      FoldTail(INITIAL, message, data);
      Take(data, j, message);
      message := message + data;
    }

    /** SHA1Final: a one bit, zeros up to the last eight bytes of a block, and the length. */
    method Final() returns (digest: seq<bv8>)
      requires Valid()
      modifies this, buffer
      ensures digest == Output(Digest(old(message)))
    {
      hide Fold, CountIs, Tail, Big32, LengthField, Output;
      ghost var m := message;
      var length := Big32(count1) + Big32(count0);
      CountField(count0, count1, |m|);
      CountPlace(count0, count1, |m|);
      Update([0x80]);
      ghost var k := 0;
      NoZeros();
      CountPlace(count0, count1, |message|);
      while count0 / 8 % 64 != 56
        invariant Valid() && buffer == old(buffer) && k <= PadZeros(|m|) && message == m + [0x80] + Zeros(k)
        invariant count0 / 8 % 64 == (|m| + 1 + k) % 64
        decreases PadZeros(|m|) - k
      {
        MoreZeros(m, k);
        Update([0]);
        k := k + 1;
        CountPlace(count0, count1, |message|);
      }
      FirstFit(|m|, k);
      Update(length);
      assert message == Padded(m);
      digest := Output(state);
    }
  }

  lemma NoZeros()
    ensures Zeros(0) == []
  {
  }

  lemma MoreZeros(m: seq<bv8>, k: nat)
    ensures m + [0x80] + Zeros(k) + [0] == m + [0x80] + Zeros(k + 1)
  {
    assert Zeros(k) + [0] == Zeros(k + 1);
  }

  lemma FirstFit(n: nat, k: nat)
    requires k <= PadZeros(n) && (n + 1 + k) % 64 == 56
    ensures k == PadZeros(n)
  {
  }

  /** However the message is cut into pieces, the digest is that of the whole. */
  method Hash(pieces: seq<seq<bv8>>) returns (digest: seq<bv8>)
    requires forall i | 0 <= i < |pieces| :: |pieces[i]| < TWO_29
    ensures digest == Output(Digest(Concat(pieces)))
  {
    hide Digest, Output;
    var context := new Context();
    for i := 0 to |pieces|
      invariant context.Valid() && fresh(context) && fresh(context.buffer) && context.message == Concat(pieces[..i])
    {
      assert pieces[..i + 1][..i] == pieces[..i];
      context.Update(pieces[i]);
    }
    assert pieces[..|pieces|] == pieces;
    digest := context.Final();
  }

  lemma WordBits(w: bv32)
    ensures (((w >> 24) & 255) as bv8 as bv32 << 24) | (((w >> 16) & 255) as bv8 as bv32 << 16)
          | (((w >> 8) & 255) as bv8 as bv32 << 8) | ((w & 255) as bv8 as bv32) == w
  {
    hide *;
  }

  /** The bytes of the output are the words of the state, in the byte order of the input. */
  lemma OutputOrder(w: bv32)
    ensures var s := BytesOf(w); Word(s[0], s[1], s[2], s[3]) == w
  {
    WordBits(w);
  }

  lemma FirstBlock(h: Words, tail: seq<bv8>, data: seq<bv8>)
    requires |tail| < 64 && |tail| + |data| > 63
    ensures var i := 64 - |tail|; Fold(h, tail + data) == Fold(Transform(h, tail + data[..i]), data[i..])
  {
    var i, x := 64 - |tail|, tail + data;
    assert x[..64] == tail + data[..i] && x[64..] == data[i..];
  }

  lemma NextBlock(h: Words, data: seq<bv8>, i: nat)
    requires i + 64 <= |data|
    ensures Fold(h, data[i..]) == Fold(Transform(h, data[i..i + 64]), data[i + 64..])
  {
    assert data[i..][..64] == data[i..i + 64] && data[i..][64..] == data[i + 64..];
  }

  lemma NoBlock(h: Words, s: seq<bv8>)
    requires |s| < 64
    ensures Fold(h, s) == h
  {
  }

  /** The buffer after the last copy holds the tail of the longer message. */
  lemma NewTail(m: seq<bv8>, data: seq<bv8>, i: nat, j: nat, before: seq<bv8>, buffer: seq<bv8>)
    requires i <= |data| && |buffer| == 64 && j + (|data| - i) < 64 && |before| == j
    requires before + data[i..] == buffer[..j + (|data| - i)]
    requires if i == 0 then before == Tail(m) else j == 0 && (|m| % 64 + i) % 64 == 0
    ensures buffer[..|m + data| % 64] == Tail(m + data)
  {
    hide Tail;
    if i == 0 {
      assert data[0..] == data;
      TailLonger(m, data);
    } else {
      assert m + data == (m + data[..i]) + data[i..];
      SumMod(|m|, i);
      TailOf(m + data, m + data[..i], data[i..]);
    }
    assert |m + data| % 64 == |Tail(m + data)|;
  }

  lemma TailLonger(m: seq<bv8>, data: seq<bv8>)
    requires |m| % 64 + |data| < 64
    ensures Tail(m + data) == Tail(m) + data
  {
    var whole := m[..|m| - |m| % 64];
    assert m == whole + Tail(m);
    assert m + data == whole + (Tail(m) + data);
    TailOf(m + data, whole, Tail(m) + data);
  }

  lemma SumMod(a: nat, b: nat)
    requires (a % 64 + b) % 64 == 0
    ensures (a + b) % 64 == 0
  {
  }
}
