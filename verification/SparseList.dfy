/** The backed-block list of libsparse/backed_block.c: runs of blocks in increasing order, with a
    cache of the last insertion and merging of neighbours.

    A list means an image: a partial function from block numbers to block contents. */
module SparseList {
  import opened Common
  import opened Bytes

  /** The lengths of the headers of a sparse file. */
  const FILE_HDR: nat := 28
  const CHUNK_HDR: nat := 12

  /** Files and descriptors that runs refer to. */
  datatype Env = Env(files: map<string, seq<byte>>, fds: map<int, seq<byte>>)

  datatype Source =
    | Data(bytes: seq<byte>)
    | FileAt(name: string, offset: nat)
    | FdAt(fd: int, offset: nat)
    | Fill(val: nat)

  /** struct backed_block: `len` bytes that go to the blocks from `block` on. */
  datatype Run = Run(block: nat, len: nat, src: Source)

  // ----- Meaning

  function ByteAt(s: seq<byte>, q: int): byte { if 0 <= q < |s| then s[q] else 0 }

  /** Byte `q` of what a run writes, at offset `o` of a block; bytes past the end of data are 0. A
      fill covers whole blocks. */
  function Byte(env: Env, r: Run, q: int, o: nat): byte {
    match r.src
    case Fill(val) => LeByte(val, o % 4)
    case Data(bytes) => if q < r.len then ByteAt(bytes, q) else 0
    case FileAt(name, offset) =>
      if q < r.len && name in env.files then ByteAt(env.files[name], offset + q) else 0
    case FdAt(fd, offset) =>
      if q < r.len && fd in env.fds then ByteAt(env.fds[fd], offset + q) else 0
  }

  /** The number of blocks a run covers, and the block after the last one. */
  function Blocks(bs: nat, r: Run): nat
    requires bs > 0
  {
    DivRoundUp(r.len, bs)
  }

  function End(bs: nat, r: Run): nat
    requires bs > 0
  {
    r.block + Blocks(bs, r)
  }

  predicate Has(bs: nat, r: Run, b: nat)
    requires bs > 0
  {
    r.block <= b < End(bs, r)
  }

  function BlockOf(env: Env, bs: nat, r: Run, b: nat): seq<byte>
    requires bs > 0 && r.block <= b
  {
    seq<byte>(bs, o requires 0 <= o < bs => Byte(env, r, (b - r.block) * bs + o, o))
  }

  /** The contents of block `b`. */
  function Image(env: Env, bs: nat, runs: seq<Run>, b: nat): Option<seq<byte>>
    requires bs > 0
  {
    if runs == [] then None
    else if Has(bs, runs[0], b) then Some(BlockOf(env, bs, runs[0], b))
    else Image(env, bs, runs[1..], b)
  }

  /** Runs in increasing order that share no block. */
  ghost predicate Sorted(bs: nat, runs: seq<Run>)
    requires bs > 0
  {
    forall i, j {:trigger Apart(bs, runs[i], runs[j])} | 0 <= i < j < |runs| ::
      Apart(bs, runs[i], runs[j])
  }

  predicate Apart(bs: nat, a: Run, b: Run)
    requires bs > 0
  {
    End(bs, a) <= b.block && a.block < b.block
  }

  predicate Before(bs: nat, a: Run, b: Run)
    requires bs > 0
  {
    End(bs, a) <= b.block
  }

  /** The same for lists that may hold runs of no length, which cover no block. */
  ghost predicate Ordered(bs: nat, runs: seq<Run>)
    requires bs > 0
  {
    forall i, j {:trigger Before(bs, runs[i], runs[j])} | 0 <= i < j < |runs| ::
      Before(bs, runs[i], runs[j])
  }

  /** Without such runs there is no difference. */
  lemma OrderedIsSorted(bs: nat, runs: seq<Run>)
    requires bs > 0
    ensures Sorted(bs, runs) ==> Ordered(bs, runs)
    ensures Ordered(bs, runs) && Sized(runs) ==> Sorted(bs, runs)
  {
    if Sorted(bs, runs) {
      forall i, j | 0 <= i < j < |runs| ensures Before(bs, runs[i], runs[j]) {
        assert Apart(bs, runs[i], runs[j]);
      }
    }
    if Ordered(bs, runs) && Sized(runs) {
      forall i, j | 0 <= i < j < |runs| ensures Apart(bs, runs[i], runs[j]) {
        assert Before(bs, runs[i], runs[j]);
        RoundUpPositive(runs[i].len, bs);
      }
    }
  }

  ghost predicate Disjoint(bs: nat, runs: seq<Run>, x: Run)
    requires bs > 0
  {
    forall i {:trigger Apart(bs, runs[i], x)} {:trigger Apart(bs, x, runs[i])} | 0 <= i < |runs| ::
      Apart(bs, runs[i], x) || Apart(bs, x, runs[i])
  }

  /** Every run has at least one byte and a 32-bit length. */
  ghost predicate Sized(runs: seq<Run>) {
    forall i | 0 <= i < |runs| :: 0 < runs[i].len < TWO_32
  }

  lemma {:induction false} ImageConcat(env: Env, bs: nat, a: seq<Run>, b: seq<Run>, blk: nat)
    requires bs > 0
    ensures Image(env, bs, a + b, blk) ==
            if Image(env, bs, a, blk).Some? then Image(env, bs, a, blk) else Image(env, bs, b, blk)
  {
    if a == [] {
      assert a + b == b;
    } else {
      assert (a + b)[1..] == a[1..] + b;
      ImageConcat(env, bs, a[1..], b, blk);
    }
  }

  /** A block has contents exactly when a run covers it. */
  lemma {:induction false} ImageCovered(env: Env, bs: nat, runs: seq<Run>, blk: nat)
    requires bs > 0
    ensures Image(env, bs, runs, blk).Some? <==> exists i | 0 <= i < |runs| :: Has(bs, runs[i], blk)
  {
    if runs != [] {
      ImageCovered(env, bs, runs[1..], blk);
      assert forall i | 0 <= i < |runs| - 1 :: runs[1..][i] == runs[i + 1];
      if Image(env, bs, runs, blk).Some? && !Has(bs, runs[0], blk) {
        var i :| 0 <= i < |runs| - 1 && Has(bs, runs[1..][i], blk);
        assert Has(bs, runs[i + 1], blk);
      }
      if i :| 0 <= i < |runs| && Has(bs, runs[i], blk) {
        assert i > 0 ==> Has(bs, runs[1..][i - 1], blk);
      }
    }
  }

  /** In a sorted list the run that covers a block decides its contents. */
  lemma {:induction false} ImageOfRun(env: Env, bs: nat, runs: seq<Run>, i: nat, blk: nat)
    requires bs > 0 && Sorted(bs, runs) && i < |runs| && Has(bs, runs[i], blk)
    ensures Image(env, bs, runs, blk) == Some(BlockOf(env, bs, runs[i], blk))
  {
    if i > 0 {
      assert Apart(bs, runs[0], runs[i]);
      assert runs[1..][i - 1] == runs[i];
      ImageOfRun(env, bs, runs[1..], i - 1, blk);
    }
  }

  // ----- Merging

  /** merge_bb's test. The adjacency test rounds down. File runs never pass: merge_bb compares the
      name pointers, and each queued run holds its own copy of the name. */
  predicate Mergeable(bs: nat, a: Run, b: Run)
    requires bs > 0
  {
    && a.block + a.len / bs == b.block
    && match (a.src, b.src)
       case (Fill(v), Fill(w)) => v == w
       case (FdAt(f, x), FdAt(g, y)) => f == g && x + a.len == y
       case _ => false
  }

  /** The merged run; the length field has 32 bits. */
  function Merged(a: Run, b: Run): Run { a.(len := (a.len + b.len) % TWO_32) }

  lemma DivOfSum(k: nat, y: nat, bs: nat)
    requires bs > 0
    ensures DivRoundUp(k * bs + y, bs) == k + DivRoundUp(y, bs)
  {
    var q, r := (y + bs - 1) / bs, (y + bs - 1) % bs;
    assert k * bs + y + bs - 1 == (k + q) * bs + r;
    DivModUnique(k + q, r, bs);
  }

  /** Two runs that merge are whole blocks apart: the first fills its last block. */
  lemma MergeableIsWhole(bs: nat, a: Run, b: Run)
    requires bs > 0 && Mergeable(bs, a, b) && Apart(bs, a, b)
    ensures a.len % bs == 0 && a.len == (a.len / bs) * bs && Blocks(bs, a) == a.len / bs
    ensures End(bs, a) == b.block
  {
    var k, r := a.len / bs, a.len % bs;
    assert a.len == k * bs + r;
    DivOfSum(k, r, bs);
    RoundUpPositive(r, bs);
  }

  lemma MergedBytes(env: Env, bs: nat, a: Run, b: Run, q: int, o: nat)
    requires bs > 0 && Mergeable(bs, a, b) && a.len + b.len < TWO_32
    ensures q < a.len ==> Byte(env, Merged(a, b), q, o) == Byte(env, a, q, o)
    ensures q >= a.len ==> Byte(env, Merged(a, b), q, o) == Byte(env, b, q - a.len, o)
  {
    assert Merged(a, b).len == a.len + b.len;
  }

  lemma MergedBlockOfFirst(env: Env, bs: nat, a: Run, b: Run, blk: nat)
    requires bs > 0 && Mergeable(bs, a, b) && a.len + b.len < TWO_32
    requires a.len == (a.len / bs) * bs && a.block <= blk < a.block + a.len / bs
    ensures BlockOf(env, bs, Merged(a, b), blk) == BlockOf(env, bs, a, blk)
  {
    var n := blk - a.block;
    MulMonotone(n + 1, a.len / bs, bs);
    assert (n + 1) * bs == n * bs + bs;
    var was, now := BlockOf(env, bs, a, blk), BlockOf(env, bs, Merged(a, b), blk);
    forall o | 0 <= o < bs ensures now[o] == was[o] {
      MergedBytes(env, bs, a, b, n * bs + o, o);
    }
  }

  lemma MergedBlockOfSecond(env: Env, bs: nat, a: Run, b: Run, blk: nat)
    requires bs > 0 && Mergeable(bs, a, b) && a.len + b.len < TWO_32
    requires a.len == (a.len / bs) * bs && b.block <= blk
    ensures BlockOf(env, bs, Merged(a, b), blk) == BlockOf(env, bs, b, blk)
  {
    var n, k := blk - b.block, a.len / bs;
    assert (blk - a.block) * bs == (n + k) * bs == n * bs + a.len;
    assert n * bs >= 0 by { MulMonotone(0, n, bs); }
    var was, now := BlockOf(env, bs, b, blk), BlockOf(env, bs, Merged(a, b), blk);
    forall o | 0 <= o < bs ensures now[o] == was[o] {
      MergedBytes(env, bs, a, b, n * bs + a.len + o, o);
    }
  }

  /** Merging changes no block when the length does not wrap. */
  lemma MergeKeepsBlocks(env: Env, bs: nat, a: Run, b: Run, blk: nat)
    requires bs > 0 && Mergeable(bs, a, b) && Apart(bs, a, b) && a.len + b.len < TWO_32
    ensures End(bs, Merged(a, b)) == End(bs, b)
    ensures Has(bs, Merged(a, b), blk) <==> Has(bs, a, blk) || Has(bs, b, blk)
    ensures Has(bs, a, blk) ==> BlockOf(env, bs, Merged(a, b), blk) == BlockOf(env, bs, a, blk)
    ensures Has(bs, b, blk) ==> BlockOf(env, bs, Merged(a, b), blk) == BlockOf(env, bs, b, blk)
  {
    MergeableIsWhole(bs, a, b);
    DivOfSum(a.len / bs, b.len, bs);
    if Has(bs, a, blk) {
      MergedBlockOfFirst(env, bs, a, b, blk);
    }
    if Has(bs, b, blk) {
      MergedBlockOfSecond(env, bs, a, b, blk);
    }
  }

  /** A wrapped length loses at least the last block. */
  lemma WrapLosesBlock(bs: nat, a: Run, b: Run)
    requires 0 < bs < TWO_32 && Mergeable(bs, a, b) && Apart(bs, a, b)
    requires a.len < TWO_32 && 0 < b.len < TWO_32 && a.len + b.len >= TWO_32
    ensures End(bs, Merged(a, b)) < End(bs, b)
  {
    MergeableIsWhole(bs, a, b);
    DivOfSum(a.len / bs, b.len, bs);
    var s := a.len + b.len;
    assert Merged(a, b).len == s - TWO_32;
    DivOfSum(1, s - bs, bs);
    assert DivRoundUp(s - TWO_32, bs) <= DivRoundUp(s - bs, bs) by {
      DivMonotone(s - TWO_32 + bs - 1, s - bs + bs - 1, bs);
    }
  }

  function MergeAt(bs: nat, runs: seq<Run>, i: int): seq<Run>
    requires bs > 0
  {
    if 0 <= i < |runs| - 1 && Mergeable(bs, runs[i], runs[i + 1])
    then runs[..i] + [Merged(runs[i], runs[i + 1])] + runs[i + 2..]
    else runs
  }

  predicate WrapsAt(bs: nat, runs: seq<Run>, i: int)
    requires bs > 0
  {
    0 <= i < |runs| - 1 && Mergeable(bs, runs[i], runs[i + 1])
    && runs[i].len + runs[i + 1].len >= TWO_32
  }

  lemma MergeAtSorted(bs: nat, runs: seq<Run>, i: int)
    requires 0 < bs < TWO_32 && Sorted(bs, runs)
    requires forall k | 0 <= k < |runs| :: runs[k].len < TWO_32
    ensures Sorted(bs, MergeAt(bs, runs, i))
    ensures forall k | 0 <= k < |MergeAt(bs, runs, i)| :: MergeAt(bs, runs, i)[k].len < TWO_32
    ensures Sized(runs) && !WrapsAt(bs, runs, i) ==> Sized(MergeAt(bs, runs, i))
  {
    if 0 <= i < |runs| - 1 && Mergeable(bs, runs[i], runs[i + 1]) {
      assert Apart(bs, runs[i], runs[i + 1]);
      MergedEnd(bs, runs[i], runs[i + 1]);
      ReplaceTwoSorted(bs, runs, i, Merged(runs[i], runs[i + 1]));
    }
  }

  /** Two neighbours replaced by one run that lies where they do. */
  lemma ReplaceTwoSorted(bs: nat, runs: seq<Run>, i: nat, m: Run)
    requires bs > 0 && Sorted(bs, runs) && i < |runs| - 1 && m.len < TWO_32
    requires m.block == runs[i].block && End(bs, m) <= End(bs, runs[i + 1])
    requires forall k | 0 <= k < |runs| :: runs[k].len < TWO_32
    ensures var out := runs[..i] + [m] + runs[i + 2..];
            && Sorted(bs, out) && (forall k | 0 <= k < |out| :: out[k].len < TWO_32)
            && (Sized(runs) && m.len > 0 ==> Sized(out))
  {
    hide End;
    var out := runs[..i] + [m] + runs[i + 2..];
    forall k | 0 <= k < |out| ensures out[k] == if k < i then runs[k] else if k == i then m else runs[k + 1] {
    }
    forall k, l | 0 <= k < l < |out| ensures Apart(bs, out[k], out[l]) {
      var l' := if l <= i then l else l + 1;
      if k < i {
        assert Apart(bs, runs[k], runs[l']);
      } else {
        assert Apart(bs, runs[k + 1], runs[l']);
        assert k == i ==> Apart(bs, runs[i], runs[l']);
      }
    }
  }

  lemma MergedEnd(bs: nat, a: Run, b: Run)
    requires 0 < bs < TWO_32 && Mergeable(bs, a, b) && Apart(bs, a, b)
    requires a.len < TWO_32 && b.len < TWO_32
    ensures End(bs, Merged(a, b)) <= End(bs, b)
  {
    MergeableIsWhole(bs, a, b);
    if a.len + b.len < TWO_32 {
      DivOfSum(a.len / bs, b.len, bs);
    } else {
      WrapLosesBlock(bs, a, b);
    }
  }

  /** The image of a list with a part replaced. */
  lemma ImageSplice(env: Env, bs: nat, a: seq<Run>, mid: seq<Run>, b: seq<Run>, blk: nat)
    requires bs > 0
    ensures Image(env, bs, a + mid + b, blk) ==
            if Image(env, bs, a, blk).Some? then Image(env, bs, a, blk)
            else if Image(env, bs, mid, blk).Some? then Image(env, bs, mid, blk)
            else Image(env, bs, b, blk)
  {
    ImageConcat(env, bs, a + mid, b, blk);
    ImageConcat(env, bs, a, mid, blk);
  }

  lemma ImageOfPair(env: Env, bs: nat, x: Run, y: Run, blk: nat)
    requires bs > 0
    ensures Image(env, bs, [x], blk) == if Has(bs, x, blk) then Some(BlockOf(env, bs, x, blk)) else None
    ensures Image(env, bs, [x, y], blk) ==
            if Has(bs, x, blk) then Some(BlockOf(env, bs, x, blk))
            else if Has(bs, y, blk) then Some(BlockOf(env, bs, y, blk)) else None
  {
    assert [x, y][1..] == [y] && [y][1..] == [];
    assert Image(env, bs, [y], blk) == if Has(bs, y, blk) then Some(BlockOf(env, bs, y, blk)) else None;
  }

  lemma MergedPairImage(env: Env, bs: nat, x: Run, y: Run, blk: nat)
    requires 0 < bs < TWO_32 && Mergeable(bs, x, y) && Apart(bs, x, y)
    requires x.len < TWO_32 && y.len < TWO_32
    ensures Image(env, bs, [Merged(x, y)], blk).Some? ==> Image(env, bs, [x, y], blk).Some?
    ensures x.len + y.len < TWO_32 ==> Image(env, bs, [Merged(x, y)], blk) == Image(env, bs, [x, y], blk)
    ensures x.len + y.len >= TWO_32 && blk == End(bs, y) - 1 ==> Image(env, bs, [Merged(x, y)], blk).None?
  {
    ImageOfPair(env, bs, x, y, blk);
    ImageOfPair(env, bs, Merged(x, y), y, blk);
    MergeableIsWhole(bs, x, y);
    if x.len + y.len < TWO_32 {
      MergeKeepsBlocks(env, bs, x, y, blk);
    } else {
      WrapLosesBlock(bs, x, y);
    }
  }

  lemma MergeAtImage(env: Env, bs: nat, runs: seq<Run>, i: int, blk: nat)
    requires 0 < bs < TWO_32 && Sorted(bs, runs)
    requires forall k | 0 <= k < |runs| :: runs[k].len < TWO_32
    ensures !WrapsAt(bs, runs, i) ==> Image(env, bs, MergeAt(bs, runs, i), blk) == Image(env, bs, runs, blk)
    ensures Image(env, bs, MergeAt(bs, runs, i), blk).Some? ==> Image(env, bs, runs, blk).Some?
    ensures WrapsAt(bs, runs, i) && blk == End(bs, runs[i + 1]) - 1 ==>
              Image(env, bs, MergeAt(bs, runs, i), blk).None? && Image(env, bs, runs, blk).Some?
  {
    if 0 <= i < |runs| - 1 && Mergeable(bs, runs[i], runs[i + 1]) {
      var a, x, y, b := runs[..i], runs[i], runs[i + 1], runs[i + 2..];
      assert Apart(bs, x, y);
      assert runs == a + [x, y] + b;
      ImageSplice(env, bs, a, [x, y], b, blk);
      ImageSplice(env, bs, a, [Merged(x, y)], b, blk);
      MergedPairImage(env, bs, x, y, blk);
      if WrapsAt(bs, runs, i) && blk == End(bs, y) - 1 {
        LastBlockIsOwn(env, bs, runs, i + 1);
        ImageOfRun(env, bs, runs, i + 1, blk);
      }
    }
  }

  /** No other run covers the last block of run `i`. */
  lemma LastBlockIsOwn(env: Env, bs: nat, runs: seq<Run>, i: nat)
    requires bs > 0 && Sorted(bs, runs) && i < |runs| && runs[i].len > 0
    ensures Has(bs, runs[i], End(bs, runs[i]) - 1)
    ensures Image(env, bs, runs[..i], End(bs, runs[i]) - 1).None?
    ensures Image(env, bs, runs[i + 1..], End(bs, runs[i]) - 1).None?
    ensures i > 0 ==> Image(env, bs, runs[..i - 1], End(bs, runs[i]) - 1).None?
  {
    var blk := End(bs, runs[i]) - 1;
    RoundUpPositive(runs[i].len, bs);
    var before, after := runs[..i], runs[i + 1..];
    ImageCovered(env, bs, before, blk);
    ImageCovered(env, bs, after, blk);
    forall k | 0 <= k < |before| ensures !Has(bs, before[k], blk) {
      assert Apart(bs, runs[k], runs[i]);
    }
    forall k | 0 <= k < |after| ensures !Has(bs, after[k], blk) {
      assert Apart(bs, runs[i], runs[i + 1 + k]);
    }
    if i > 0 {
      ImageConcat(env, bs, runs[..i - 1], [runs[i - 1]], blk);
      assert before == runs[..i - 1] + [runs[i - 1]];
    }
  }
}
