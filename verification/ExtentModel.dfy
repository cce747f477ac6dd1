/** The extents that ext4_utils/extent.c writes for a file, and what the extent walker of
    ext4_utils/ext4fixup.c makes of them. */
module ExtentModel {
  import opened Common
  import opened AllocModel

  // ----- The blocks of a region list

  /** `n` consecutive block numbers. */
  function Span(start: nat, n: nat): (r: seq<nat>)
    ensures |r| == n && forall j | 0 <= j < n :: r[j] == start + j
  {
    seq<nat>(n, j requires 0 <= j => start + j)
  }

  lemma SpanSplit(start: nat, a: nat, b: nat)
    ensures Span(start, a) + Span(start + a, b) == Span(start, a + b)
  {
  }

  /** The block numbers of an allocation, in file order. */
  function Blocks(regions: seq<Region>): (r: seq<nat>)
    ensures |r| == TotalLen(regions)
  {
    if regions == [] then []
    else Span(regions[0].block, regions[0].len) + Blocks(regions[1..])
  }

  predicate Holds(r: Region, b: nat) { r.block <= b < r.block + r.len }

  ghost predicate AllApart(regions: seq<Region>) {
    forall i, j {:trigger Apart(regions[i], regions[j])} | 0 <= i < j < |regions| :: Apart(regions[i], regions[j])
  }

  lemma {:induction false} BlockIsHeld(regions: seq<Region>, i: nat) returns (k: nat)
    requires i < TotalLen(regions)
    ensures k < |regions| && Holds(regions[k], Blocks(regions)[i])
  {
    if i < regions[0].len {
      k := 0;
    } else {
      var k' := BlockIsHeld(regions[1..], i - regions[0].len);
      k := k' + 1;
    }
  }

  lemma TailApart(regions: seq<Region>)
    requires regions != [] && AllApart(regions)
    ensures AllApart(regions[1..])
  {
    var tail := regions[1..];
    forall i, j | 0 <= i < j < |tail| ensures Apart(tail[i], tail[j]) {
      assert Apart(regions[i + 1], regions[j + 1]);
    }
  }

  /** Regions that are apart hold no block twice. */
  lemma {:induction false} BlocksDiffer(regions: seq<Region>, i: nat, j: nat)
    requires AllApart(regions) && i < j < TotalLen(regions)
    ensures Blocks(regions)[i] != Blocks(regions)[j]
  {
    var n := regions[0].len;
    if n <= i {
      TailApart(regions);
      BlocksDiffer(regions[1..], i - n, j - n);
    } else if n <= j {
      var k := BlockIsHeld(regions[1..], j - n);
      assert Apart(regions[0], regions[k + 1]);
    }
  }

  lemma {:induction false} BlocksConcat(a: seq<Region>, b: seq<Region>)
    ensures Blocks(a + b) == Blocks(a) + Blocks(b)
  {
    if a == [] {
      assert a + b == b;
    } else {
      assert (a + b)[1..] == a[1..] + b;
      BlocksConcat(a[1..], b);
    }
  }

  // ----- Setting blocks aside

  /** How many whole regions lie within the first `n` blocks, and how far the cut reaches into the next. */
  function Cut(regions: seq<Region>, n: nat): (r: (nat, nat))
    ensures r.0 <= |regions| && (r.0 < |regions| ==> r.1 < regions[r.0].len)
    ensures TotalLen(regions[..r.0]) + r.1 == n
  {
    if regions == [] || n < regions[0].len then (0, n)
    else
      var (k, rest) := Cut(regions[1..], n - regions[0].len);
      assert regions[..k + 1][1..] == regions[1..][..k];
      (k + 1, rest)
  }

  datatype Parted = Parted(list: seq<Region>, oob: seq<Region>)

  /** reserve_oob_blocks on an allocation whose iterator stands at the start; None stands for -1. When
      the cut falls between two regions, everything behind it is taken out instead. */
  function Reserve(regions: seq<Region>, n: nat): Option<Parted> {
    var (k, rest) := Cut(regions, n);
    if k == |regions| then None
    else if rest > 0 then
      var r := regions[k];
      Some(Parted([Region(r.block + rest, r.len - rest, r.bg)] + regions[k + 1..],
                  regions[..k] + [Region(r.block, rest, r.bg)]))
    else if k == 0 then Some(Parted(regions, []))
    else Some(Parted(regions[..k], regions[k..]))
  }

  /** The first `n` blocks are set aside, in order, and the others stay. */
  ghost predicate TakesFirst(regions: seq<Region>, n: nat, p: Parted) {
    Blocks(p.oob) + Blocks(p.list) == Blocks(regions) && TotalLen(p.oob) == n
  }

  lemma TotalConcat(a: seq<Region>, b: seq<Region>)
    ensures TotalLen(a + b) == TotalLen(a) + TotalLen(b)
  {
    BlocksConcat(a, b);
    assert |Blocks(a + b)| == |Blocks(a)| + |Blocks(b)|;
  }

  lemma SplitRegion(pre: seq<Region>, r: Region, post: seq<Region>, rest: nat)
    requires 0 < rest < r.len
    ensures Blocks(pre + [Region(r.block, rest, r.bg)]) + Blocks([Region(r.block + rest, r.len - rest, r.bg)] + post)
         == Blocks(pre + ([r] + post))
  {
    hide Blocks, Span;
    var a, b := Region(r.block, rest, r.bg), Region(r.block + rest, r.len - rest, r.bg);
    BlocksConcat(pre, [a]);
    BlocksConcat([b], post);
    BlocksConcat([r], post);
    BlocksConcat(pre, [r] + post);
    assert Blocks([r]) == Blocks([a]) + Blocks([b]) by {
      OneRegion(a);
      OneRegion(b);
      OneRegion(r);
      SpanSplit(r.block, rest, r.len - rest);
    }
    FourParts(Blocks(pre), Blocks([a]), Blocks([b]), Blocks(post));
  }

  lemma FourParts(a: seq<nat>, b: seq<nat>, c: seq<nat>, d: seq<nat>)
    ensures (a + b) + (c + d) == a + ((b + c) + d)
  {
  }

  lemma OneRegion(r: Region)
    ensures Blocks([r]) == Span(r.block, r.len)
  {
    assert [r][1..] == [];
  }

  lemma ReserveInside(regions: seq<Region>, n: nat)
    requires Cut(regions, n).0 < |regions| && Cut(regions, n).1 > 0
    ensures TakesFirst(regions, n, Reserve(regions, n).value)
  {
    hide Blocks, Span, TotalLen;
    var (k, rest) := Cut(regions, n);
    var a := Region(regions[k].block, rest, regions[k].bg);
    assert regions == regions[..k] + ([regions[k]] + regions[k + 1..]);
    SplitRegion(regions[..k], regions[k], regions[k + 1..], rest);
    TotalConcat(regions[..k], [a]);
    assert |Blocks([a])| == rest by {
      OneRegion(a);
    }
  }

  lemma ReserveAtEdge(regions: seq<Region>, n: nat)
    requires AllApart(regions) && 0 < Cut(regions, n).0 < |regions| && Cut(regions, n).1 == 0
    requires forall i | 0 <= i < |regions| :: regions[i].len > 0
    ensures !TakesFirst(regions, n, Reserve(regions, n).value)
  {
    hide Blocks, Span, TotalLen;
    var k := Cut(regions, n).0;
    var p := Reserve(regions, n).value;
    assert Apart(regions[0], regions[k]);
    FirstBlock(regions);
    FirstBlock(p.oob);
    assert (Blocks(p.oob) + Blocks(p.list))[0] == regions[k].block;
  }

  /** reserve_oob_blocks sets aside the first `n` blocks exactly when that cuts a region in two, or when
      there is nothing to take. */
  lemma ReserveTakesFirst(regions: seq<Region>, n: nat)
    requires AllApart(regions) && Reserve(regions, n).Some?
    requires forall i | 0 <= i < |regions| :: regions[i].len > 0
    ensures TakesFirst(regions, n, Reserve(regions, n).value) <==> n == 0 || Cut(regions, n).1 > 0
  {
    hide Span, AllApart;
    var (k, rest) := Cut(regions, n);
    if rest > 0 {
      ReserveInside(regions, n);
    } else if k > 0 {
      ReserveAtEdge(regions, n);
    }
  }

  /** Two blocks of two regions of two: the wrong region is set aside. */
  lemma ReserveEdgeExample(a: Region, b: Region)
    requires a == Region(100, 2, 0) && b == Region(200, 2, 1)
    ensures Reserve([a, b], 2) == Some(Parted([a], [b])) && !TakesFirst([a, b], 2, Parted([a], [b]))
  {
    assert [a, b][1..] == [b] && [a, b][..1] == [a];
    assert Cut([b], 0) == (0, 0) && Cut([a, b], 2) == (1, 0);
    FirstBlock([a, b]);
    FirstBlock([b]);
    assert (Blocks([b]) + Blocks([a]))[0] == 200;
  }

  lemma FirstBlock(regions: seq<Region>)
    requires regions != [] && regions[0].len > 0
    ensures |Blocks(regions)| > 0 && Blocks(regions)[0] == regions[0].block
  {
  }

  // ----- Extents

  /** struct ext4_extent: `len` is a 16-bit field. */
  datatype Extent = Extent(block: nat, len: nat, start: nat)

  const NO_EXTENT := Extent(0, 0, 0)

  /** An extent header at depth 0 with the records behind it; the room behind them is zero. */
  datatype Node = Node(entries: nat, extents: seq<Extent>) {
    /** The records a reader of the header sees. */
    function Slots(): (r: seq<Extent>)
      ensures |r| == entries
    {
      if entries <= |extents| then extents[..entries] else extents + Zeros(entries - |extents|)
    }
  }

  function Zeros(n: nat): seq<Extent> { seq<Extent>(n, _ => NO_EXTENT) }

  /** The i_block area of the inode: records of its own, or one index that names a leaf block. */
  datatype Root = Direct(node: Node) | Indexed(leaf: nat)

  /** The records for regions from file block `at` on. */
  function Written(regions: seq<Region>, at: nat): (r: seq<Extent>)
    ensures |r| == |regions|
  {
    if regions == [] then []
    else
      [Extent(at, regions[0].len % TWO_16, regions[0].block)] + Written(regions[1..], at + regions[0].len)
  }

  /** What one record does to the walker's block list. */
  function FillOne(blocks: seq<nat>, e: Extent): (r: seq<nat>)
    ensures |r| == |blocks|
  {
    if e.block + e.len <= |blocks|
    then blocks[..e.block] + Span(e.start, e.len) + blocks[e.block + e.len..]
    else blocks
  }

  function Fill(blocks: seq<nat>, slots: seq<Extent>): (r: seq<nat>)
    ensures |r| == |blocks|
    decreases |slots|
  {
    if slots == [] then blocks else Fill(FillOne(blocks, slots[0]), slots[1..])
  }

  lemma {:induction false} ZerosFillNothing(blocks: seq<nat>, n: nat)
    ensures Fill(blocks, Zeros(n)) == blocks
  {
    if n > 0 {
      assert Zeros(n)[1..] == Zeros(n - 1);
      assert FillOne(blocks, NO_EXTENT) == blocks;
      ZerosFillNothing(blocks, n - 1);
    }
  }

  /** The walker puts every region's blocks at their places in the list and leaves the rest alone. */
  lemma {:induction false} WalkRestoresBlocks(regions: seq<Region>, at: nat, zeros: nat, blocks: seq<nat>)
    requires forall k | 0 <= k < |regions| :: regions[k].len < TWO_16
    requires at + TotalLen(regions) <= |blocks|
    ensures Fill(blocks, Written(regions, at) + Zeros(zeros)) ==
            blocks[..at] + Blocks(regions) + blocks[at + TotalLen(regions)..]
  {
    hide FillOne, Span, Zeros;
    var slots := Written(regions, at) + Zeros(zeros);
    if regions == [] {
      assert slots == Zeros(zeros);
      ZerosFillNothing(blocks, zeros);
      assert blocks[..at] + [] + blocks[at..] == blocks;
    } else {
      var r := regions[0];
      assert slots[0] == Extent(at, r.len, r.block);
      assert slots[1..] == Written(regions[1..], at + r.len) + Zeros(zeros);
      var next := FillOne(blocks, slots[0]);
      WalkRestoresBlocks(regions[1..], at + r.len, zeros, next);
      WalkJoin(r, Blocks(regions[1..]), at, blocks, next);
    }
  }

  lemma WalkJoin(r: Region, rest: seq<nat>, at: nat, blocks: seq<nat>, next: seq<nat>)
    requires at + r.len + |rest| <= |blocks| && next == FillOne(blocks, Extent(at, r.len, r.block))
    ensures next[..at + r.len] + rest + next[at + r.len + |rest|..]
         == blocks[..at] + (Span(r.block, r.len) + rest) + blocks[at + (r.len + |rest|)..]
  {
    hide Span;
    assert next[..at + r.len] == blocks[..at] + Span(r.block, r.len);
    assert next[at + r.len + |rest|..] == blocks[at + (r.len + |rest|)..];
  }
}
