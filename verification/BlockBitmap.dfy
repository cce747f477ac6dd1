/** The block bitmap of a group, byte by byte as ext4_utils/allocate.c works on it. */
module BlockBitmap {

  /** 1 << i in a byte. */
  function Mask(i: nat): bv8
    requires i < 8
  {
    match i
    case 0 => 1
    case 1 => 2
    case 2 => 4
    case 3 => 8
    case 4 => 16
    case 5 => 32
    case 6 => 64
    case _ => 128
  }

  function BitOfByte(b: bv8, i: nat): bool
    requires i < 8
  {
    b & Mask(i) != 0
  }

  function WithBit(b: bv8, i: nat): bv8
    requires i < 8
  {
    b | Mask(i)
  }

  function WithoutBit(b: bv8, i: nat): bv8
    requires i < 8
  {
    b & !Mask(i)
  }

  /** Bit `k` of the bitmap. */
  function BitAt(bm: seq<bv8>, k: nat): bool
    requires k < 8 * |bm|
  {
    BitOfByte(bm[k / 8], k % 8)
  }

  /** Bits are counted from the least significant one. */
  lemma BitIsShift(b: bv8, i: nat)
    requires i < 8
    ensures BitOfByte(b, i) <==> (b >> i) & 1 == 1
  {
    match i
    case 0 => assert BitOfByte(b, 0) <==> (b >> 0) & 1 == 1;
    case 1 => assert BitOfByte(b, 1) <==> (b >> 1) & 1 == 1;
    case 2 => assert BitOfByte(b, 2) <==> (b >> 2) & 1 == 1;
    case 3 => assert BitOfByte(b, 3) <==> (b >> 3) & 1 == 1;
    case 4 => assert BitOfByte(b, 4) <==> (b >> 4) & 1 == 1;
    case 5 => assert BitOfByte(b, 5) <==> (b >> 5) & 1 == 1;
    case 6 => assert BitOfByte(b, 6) <==> (b >> 6) & 1 == 1;
    case _ => assert BitOfByte(b, 7) <==> (b >> 7) & 1 == 1;
  }

  lemma SetMaskSets(b: bv8, i: nat, j: nat)
    requires i < 8 && j < 8
    ensures BitOfByte(WithBit(b, i), j) == (i == j || BitOfByte(b, j))
  {
    MaskAnd(b, i, j);
  }

  lemma ClearMaskClears(b: bv8, i: nat, j: nat)
    requires i < 8 && j < 8
    ensures BitOfByte(WithoutBit(b, i), j) == (i != j && BitOfByte(b, j))
  {
    if i == j {
      assert (b & !Mask(i)) & Mask(i) == 0;
    } else {
      MasksDiffer(i, j);
      assert (b & !Mask(i)) & Mask(j) == b & (!Mask(i) & Mask(j));
    }
  }

  lemma MasksDiffer(i: nat, j: nat)
    requires i < 8 && j < 8 && i != j
    ensures Mask(i) & Mask(j) == 0 && !Mask(i) & Mask(j) == Mask(j)
  {
  }

  lemma MaskAnd(b: bv8, i: nat, j: nat)
    requires i < 8 && j < 8
    ensures ((b | Mask(i)) & Mask(j) != 0) == (i == j || b & Mask(j) != 0)
  {
    if i == j {
      assert (b | Mask(i)) & Mask(i) == Mask(i) != 0;
    } else {
      MasksDiffer(i, j);
      assert (b | Mask(i)) & Mask(j) == (b & Mask(j)) | (Mask(i) & Mask(j));
    }
  }

  /** A byte is 0 exactly when none of its bits is set, and 0xFF has them all. */
  lemma ByteIsItsBits(b: bv8)
    ensures b == 0 <==> forall i | 0 <= i < 8 :: !BitOfByte(b, i)
    ensures forall i | 0 <= i < 8 :: BitOfByte(0xFF, i)
  {
    if b != 0 {
      SomeBit(b);
    }
    forall i | 0 <= i < 8 ensures BitOfByte(0xFF, i) {
      AllBits(i);
    }
  }

  lemma AllBits(i: nat)
    requires i < 8
    ensures (0xFF as bv8) & Mask(i) != 0
  {
  }

  lemma SomeBit(b: bv8)
    requires b != 0
    ensures exists i | 0 <= i < 8 :: BitOfByte(b, i)
  {
    assert BitOfByte(b, 0) || BitOfByte(b, 1) || BitOfByte(b, 2) || BitOfByte(b, 3)
        || BitOfByte(b, 4) || BitOfByte(b, 5) || BitOfByte(b, 6) || BitOfByte(b, 7);
  }

  /** All bits of [lo, hi) are clear. */
  ghost predicate ClearIn(bm: seq<bv8>, lo: nat, hi: nat)
    requires hi <= 8 * |bm|
  {
    forall k | lo <= k < hi :: !BitAt(bm, k)
  }

  /** `now` is `was` with the bits of [lo, hi) given the value `v`. */
  ghost predicate SetIn(was: seq<bv8>, now: seq<bv8>, lo: nat, hi: nat, v: bool) {
    && |now| == |was|
    && forall k | 0 <= k < 8 * |was| :: BitAt(now, k) == if lo <= k < hi then v else BitAt(was, k)
  }

  lemma SetInExtends(a: seq<bv8>, b: seq<bv8>, c: seq<bv8>, lo: nat, mid: nat, hi: nat, v: bool)
    requires lo <= mid <= hi && SetIn(a, b, lo, mid, v) && SetIn(b, c, mid, hi, v)
    ensures SetIn(a, c, lo, hi, v)
  {
  }

  lemma SetInExtendsDown(a: seq<bv8>, b: seq<bv8>, c: seq<bv8>, lo: nat, mid: nat, hi: nat, v: bool)
    requires lo <= mid <= hi && SetIn(a, b, mid, hi, v) && SetIn(b, c, lo, mid, v)
    ensures SetIn(a, c, lo, hi, v)
  {
  }

  /** Writing one bit of one byte. */
  lemma WriteBit(was: seq<bv8>, now: seq<bv8>, k: nat, v: bool)
    requires k < 8 * |was|
    requires now == was[k / 8 := if v then WithBit(was[k / 8], k % 8) else WithoutBit(was[k / 8], k % 8)]
    ensures SetIn(was, now, k, k + 1, v)
  {
    hide WithBit, WithoutBit, BitOfByte;
    forall j | 0 <= j < 8 * |was| ensures BitAt(now, j) == if k <= j < k + 1 then v else BitAt(was, j) {
      if j / 8 == k / 8 {
        SetMaskSets(was[k / 8], k % 8, j % 8);
        ClearMaskClears(was[k / 8], k % 8, j % 8);
      }
    }
  }

  /** Writing a whole byte of ones. */
  lemma WriteByte(was: seq<bv8>, now: seq<bv8>, k: nat)
    requires k % 8 == 0 && k < 8 * |was| && now == was[k / 8 := 0xFF]
    ensures SetIn(was, now, k, k + 8, true)
    ensures was[k / 8] == 0 <==> ClearIn(was, k, k + 8)
  {
    ByteIsItsBits(was[k / 8]);
    forall j | 0 <= j < 8 * |was| ensures BitAt(now, j) == if k <= j < k + 8 then true else BitAt(was, j) {
      AllBits(j % 8);
    }
    if ClearIn(was, k, k + 8) {
      forall i | 0 <= i < 8 ensures !BitOfByte(was[k / 8], i) {
        assert (k + i) / 8 == k / 8 && (k + i) % 8 == i;
        assert !BitAt(was, k + i);
      }
    }
  }

  lemma BitIsSetAlready(bm: seq<bv8>, k: nat)
    requires k < 8 * |bm| && BitAt(bm, k)
    ensures SetIn(bm, bm, k, k + 1, true)
  {
  }

  /** bitmap_set_bit. */
  method SetBit(bm: array<bv8>, bit: nat) returns (already: bool)
    requires bit < 8 * bm.Length
    modifies bm
    ensures already == BitAt(old(bm[..]), bit)
    ensures SetIn(old(bm[..]), bm[..], bit, bit + 1, true)
  {
    hide WithBit, SetIn, BitOfByte;
    already := BitOfByte(bm[bit / 8], bit % 8);
    if already {
      BitIsSetAlready(bm[..], bit);
    } else {
      bm[bit / 8] := WithBit(bm[bit / 8], bit % 8);
      WriteBit(old(bm[..]), bm[..], bit, true);
    }
  }

  /** bitmap_set_8_bits. */
  method Set8Bits(bm: array<bv8>, bit: nat) returns (already: bool)
    requires bit % 8 == 0 && bit < 8 * bm.Length
    modifies bm
    ensures already <==> !ClearIn(old(bm[..]), bit, bit + 8)
    ensures SetIn(old(bm[..]), bm[..], bit, bit + 8, true)
  {
    hide BitAt, SetIn, ClearIn;
    already := bm[bit / 8] != 0;
    bm[bit / 8] := 0xFF;
    WriteByte(old(bm[..]), bm[..], bit);
  }

  /** Marking further: what has been marked so far does not matter for the bits behind it. */
  lemma ClearBehind(was: seq<bv8>, now: seq<bv8>, lo: nat, mid: nat, hi: nat)
    requires lo <= mid <= hi <= 8 * |was| && SetIn(was, now, lo, mid, true)
    ensures ClearIn(now, mid, hi) <==> ClearIn(was, mid, hi)
    ensures ClearIn(was, lo, hi) <==> ClearIn(was, lo, mid) && ClearIn(was, mid, hi)
    ensures mid < hi ==> BitAt(now, mid) == BitAt(was, mid)
    ensures mid < hi ==> (ClearIn(was, mid, mid + 1) <==> !BitAt(was, mid))
  {
    if mid < hi && !BitAt(was, mid) {
      assert ClearIn(was, mid, mid + 1);
    }
    if ClearIn(was, mid, hi) {
      assert forall k | mid <= k < hi :: BitAt(now, k) == BitAt(was, k);
    }
  }

  /** A loop of reserve_blocks: bits of [block, ...) one after the other, up to `num` of them, or up to
      the next byte boundary. `n` is the number of bits written. */
  method MarkBits(bm: array<bv8>, block: nat, num: nat, toByte: bool) returns (ok: bool, n: nat)
    requires block + num <= 8 * bm.Length
    modifies bm
    ensures n <= num && SetIn(old(bm[..]), bm[..], block, block + n, true)
    ensures ok <==> ClearIn(old(bm[..]), block, block + n)
    ensures ok ==> n == num || (toByte && (block + n) % 8 == 0)
    ensures !ok ==> n > 0
  {
    hide BitAt, SetIn, ClearIn;
    ghost var was := bm[..];
    n := 0;
    NothingMarked(was, block);
    while n < num && !(toByte && (block + n) % 8 == 0)
      invariant n <= num && ClearIn(was, block, block + n) && SetIn(was, bm[..], block, block + n, true)
    {
      ghost var before := bm[..];
      ClearBehind(was, before, block, block + n, block + n + 1);
      var already := SetBit(bm, block + n);
      SetInExtends(was, before, bm[..], block, block + n, block + n + 1, true);
      n := n + 1;
      if already {
        return false, n;
      }
    }
    ok := true;
  }

  /** The middle loop of reserve_blocks: whole bytes while `i + 8 <= limit`. */
  method MarkBytes(bm: array<bv8>, block: nat, i: nat, limit: nat) returns (ok: bool, n: nat)
    requires i + 8 <= limit ==> block % 8 == 0
    requires i <= limit ==> block + (limit - i) <= 8 * bm.Length
    requires i > limit ==> block <= 8 * bm.Length
    modifies bm
    ensures n == 0 || i + n <= limit
    ensures block + n <= 8 * bm.Length && SetIn(old(bm[..]), bm[..], block, block + n, true)
    ensures ok <==> ClearIn(old(bm[..]), block, block + n)
    ensures !ok ==> n > 0
  {
    hide BitAt, SetIn, ClearIn;
    ghost var was := bm[..];
    n := 0;
    NothingMarked(was, block);
    while i + n + 8 <= limit
      invariant n % 8 == 0 && (n == 0 || i + n <= limit) && block + n <= 8 * bm.Length
      invariant ClearIn(was, block, block + n) && SetIn(was, bm[..], block, block + n, true)
      decreases limit - n
    {
      ghost var before := bm[..];
      ClearBehind(was, before, block, block + n, block + n + 8);
      var already := Set8Bits(bm, block + n);
      SetInExtends(was, before, bm[..], block, block + n, block + n + 8, true);
      n := n + 8;
      if already {
        return false, n;
      }
    }
    ok := true;
  }

  lemma NothingMarked(bm: seq<bv8>, block: nat)
    requires block <= 8 * |bm|
    ensures ClearIn(bm, block, block) && SetIn(bm, bm, block, block, true)
  {
  }

  /** The three loops of reserve_blocks: single bits up to a byte boundary, whole bytes, single bits.
      Together they mark the range bit by bit, and they stop with an error exactly when one of the
      bits was set already; then the bits up to the stop have been set. */
  method MarkRange(bm: array<bv8>, start: nat, num: nat) returns (ok: bool)
    requires start + num <= 8 * bm.Length
    modifies bm
    ensures ok <==> ClearIn(old(bm[..]), start, start + num)
    ensures ok ==> SetIn(old(bm[..]), bm[..], start, start + num, true)
    ensures !ok ==> exists end | start < end <= start + num :: SetIn(old(bm[..]), bm[..], start, end, true)
  {
    hide BitAt, SetIn, ClearIn;
    ghost var was := bm[..];
    var i;
    ok, i := MarkBits(bm, start, num, true);
    ClearBehind(was, bm[..], start, start + i, start + num);
    if !ok {
      return;
    }
    ghost var first := bm[..];
    var n;
    ok, n := MarkBytes(bm, start + i, i, num - num % 8);
    ClearBehind(was, first, start, start + i, start + i + n);
    SetInExtends(was, first, bm[..], start, start + i, start + i + n, true);
    ClearBehind(was, bm[..], start, start + i + n, start + num);
    if !ok {
      return;
    }
    ghost var second := bm[..];
    i := i + n;
    ok, n := MarkBits(bm, start + i, num - i, false);
    ClearBehind(was, second, start, start + i, start + i + n);
    SetInExtends(was, second, bm[..], start, start + i, start + i + n, true);
    ClearBehind(was, bm[..], start, start + i + n, start + num);
  }

  /** The loop of free_blocks, downwards from the block before `top`. */
  method ClearRange(bm: array<bv8>, top: nat, num: nat)
    requires num <= top <= 8 * bm.Length
    modifies bm
    ensures SetIn(old(bm[..]), bm[..], top - num, top, false)
  {
    hide BitAt, WithoutBit, SetIn;
    ghost var was := bm[..];
    var i, block := 0, top - 1;
    NothingCleared(was, top);
    while i < num
      invariant i <= num && block == top - 1 - i
      invariant SetIn(was, bm[..], top - i, top, false)
    {
      ghost var before := bm[..];
      bm[block / 8] := WithoutBit(bm[block / 8], block % 8);
      WriteBit(before, bm[..], block, false);
      SetInExtendsDown(was, before, bm[..], block, block + 1, top, false);
      i, block := i + 1, block - 1;
    }
  }

  lemma NothingCleared(bm: seq<bv8>, top: nat)
    ensures SetIn(bm, bm, top, top, false)
  {
  }
}
