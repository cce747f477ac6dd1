/** The operations on a backed-block list: queueing a run, splitting one, moving runs between lists. */
module SparseQueue {
  import opened Common
  import opened Bytes
  import opened SparseList

  // ----- What the operations do

  /** The first position from `i` on whose run does not start before block `b`. */
  function Position(runs: seq<Run>, b: nat, i: nat): (p: nat)
    requires i <= |runs|
    ensures i <= p <= |runs|
    ensures forall k | i <= k < p :: runs[k].block < b
    ensures p < |runs| ==> runs[p].block >= b
    decreases |runs| - i
  {
    if i < |runs| && runs[i].block < b then Position(runs, b, i + 1) else i
  }

  function Inserted(runs: seq<Run>, i: nat, x: Run): seq<Run>
    requires i <= |runs|
  {
    runs[..i] + [x] + runs[i..]
  }

  /** queue_bb, searching from the head. A run put before the head is not merged. */
  function QueueRuns(bs: nat, runs: seq<Run>, x: Run): seq<Run>
    requires bs > 0
  {
    if runs == [] then [x]
    else if runs[0].block > x.block then [x] + runs
    else
      var i := Position(runs, x.block, 1);
      MergeAt(bs, MergeAt(bs, Inserted(runs, i, x), i), i - 1)
  }

  /** One of the two merges of queue_bb overflows the 32-bit length. */
  predicate QueueWraps(bs: nat, runs: seq<Run>, x: Run)
    requires bs > 0
  {
    runs != [] && runs[0].block <= x.block &&
    var i := Position(runs, x.block, 1);
    var s := Inserted(runs, i, x);
    WrapsAt(bs, s, i) || WrapsAt(bs, MergeAt(bs, s, i), i - 1)
  }

  function DropBytes(s: seq<byte>, n: nat): seq<byte> { if n <= |s| then s[n..] else [] }

  /** What is left of a source after its first `n` bytes. */
  function Skip(src: Source, n: nat): Source {
    match src
    case Data(bytes) => Data(DropBytes(bytes, n))
    case FileAt(name, offset) => FileAt(name, offset + n)
    case FdAt(fd, offset) => FdAt(fd, offset + n)
    case Fill(val) => src
  }

  /** The two parts of a run cut after `m` bytes. */
  function Cut(bs: nat, r: Run, m: nat): (Run, Run)
    requires bs > 0 && m <= r.len
  {
    (r.(len := m), Run(r.block + m / bs, r.len - m, Skip(r.src, m)))
  }

  /** backed_block_split. */
  function SplitRuns(bs: nat, runs: seq<Run>, i: nat, maxLen: nat): seq<Run>
    requires bs > 0 && i < |runs|
  {
    var m := AlignDown(maxLen, bs);
    if runs[i].len <= m then runs
    else
      var (a, b) := Cut(bs, runs[i], m);
      runs[..i] + [a, b] + runs[i + 1..]
  }

  /** The list `to` after backed_block_list_move has put `seg` into it. */
  function MovedInto(to: seq<Run>, seg: seq<Run>): seq<Run> {
    if seg == [] then to
    else if to == [] then seg
    else
      var k := Position(to, seg[0].block + 1, 1);
      to[..k] + seg + to[k..]
  }

  // ----- Queueing

  lemma InsertedSorted(bs: nat, runs: seq<Run>, i: nat, x: Run)
    requires bs > 0 && Sorted(bs, runs) && Disjoint(bs, runs, x) && i <= |runs|
    requires forall k | 0 <= k < i :: runs[k].block < x.block
    requires i < |runs| ==> runs[i].block >= x.block
    ensures Sorted(bs, Inserted(runs, i, x))
  {
    var s := Inserted(runs, i, x);
    forall k | 0 <= k < |s| ensures s[k] == if k < i then runs[k] else if k == i then x else runs[k - 1] {
    }
    forall k | i <= k < |runs| ensures Apart(bs, x, runs[k]) {
      assert k > i ==> Apart(bs, runs[i], runs[k]);
    }
    forall k, l | 0 <= k < l < |s| ensures Apart(bs, s[k], s[l]) {
      if k != i && l != i {
        var k', l' := if k < i then k else k - 1, if l < i then l else l - 1;
        assert Apart(bs, runs[k'], runs[l']);
      }
    }
  }

  lemma InsertedImage(env: Env, bs: nat, runs: seq<Run>, i: nat, x: Run, b: nat)
    requires bs > 0 && Disjoint(bs, runs, x) && i <= |runs|
    ensures Image(env, bs, Inserted(runs, i, x), b) ==
            if Has(bs, x, b) then Some(BlockOf(env, bs, x, b)) else Image(env, bs, runs, b)
  {
    ImageSplice(env, bs, runs[..i], [x], runs[i..], b);
    ImageConcat(env, bs, runs[..i], runs[i..], b);
    assert runs == runs[..i] + runs[i..];
    ImageOfPair(env, bs, x, x, b);
    if Has(bs, x, b) {
      ImageCovered(env, bs, runs, b);
      forall k | 0 <= k < |runs| ensures !Has(bs, runs[k], b) {
        assert Apart(bs, runs[k], x) || Apart(bs, x, runs[k]);
      }
    }
  }

  /** The position queue_bb finds in a sorted list is the only one that keeps it sorted. */
  lemma PositionSplits(bs: nat, runs: seq<Run>, x: Run)
    requires bs > 0 && Sorted(bs, runs) && runs != [] && Disjoint(bs, runs, x) && runs[0].block <= x.block
    ensures var i := Position(runs, x.block, 1);
            && (forall k | 0 <= k < i :: runs[k].block < x.block)
            && (i < |runs| ==> runs[i].block >= x.block)
  {
    assert Apart(bs, runs[0], x) || Apart(bs, x, runs[0]);
  }

  ghost predicate Fields(runs: seq<Run>) { forall k | 0 <= k < |runs| :: runs[k].len < TWO_32 }

  lemma InsertedFields(runs: seq<Run>, i: nat, x: Run)
    requires Fields(runs) && i <= |runs| && 0 < x.len < TWO_32
    ensures Fields(Inserted(runs, i, x)) && (Sized(runs) ==> Sized(Inserted(runs, i, x)))
  {
    var s := Inserted(runs, i, x);
    forall k | 0 <= k < |s| ensures s[k] == if k < i then runs[k] else if k == i then x else runs[k - 1] {
    }
  }

  /** Queueing a run that shares no block with the list keeps the list sorted. */
  lemma QueueKeepsOrder(bs: nat, runs: seq<Run>, x: Run)
    requires 0 < bs < TWO_32 && Sorted(bs, runs) && Fields(runs) && Disjoint(bs, runs, x)
    requires 0 < x.len < TWO_32
    ensures Sorted(bs, QueueRuns(bs, runs, x)) && Fields(QueueRuns(bs, runs, x))
    ensures Sized(runs) && !QueueWraps(bs, runs, x) ==> Sized(QueueRuns(bs, runs, x))
  {
    hide Sorted, Disjoint, MergeAt, Blocks;
    if runs == [] || runs[0].block > x.block {
      assert QueueRuns(bs, runs, x) == Inserted(runs, 0, x);
      InsertedSorted(bs, runs, 0, x);
      InsertedFields(runs, 0, x);
    } else {
      PositionSplits(bs, runs, x);
      var i := Position(runs, x.block, 1);
      var s := Inserted(runs, i, x);
      InsertedSorted(bs, runs, i, x);
      InsertedFields(runs, i, x);
      MergeAtSorted(bs, s, i);
      MergeAtSorted(bs, MergeAt(bs, s, i), i - 1);
    }
  }

  /** Queueing a run covers none but its own blocks. */
  lemma QueueCovers(env: Env, bs: nat, runs: seq<Run>, x: Run, b: nat)
    requires 0 < bs < TWO_32 && Sorted(bs, runs) && Fields(runs) && Disjoint(bs, runs, x)
    requires 0 < x.len < TWO_32
    ensures Image(env, bs, QueueRuns(bs, runs, x), b).Some? ==>
              Has(bs, x, b) || Image(env, bs, runs, b).Some?
  {
    if runs == [] || runs[0].block > x.block {
      assert QueueRuns(bs, runs, x) == Inserted(runs, 0, x);
      InsertedImage(env, bs, runs, 0, x, b);
    } else {
      PositionSplits(bs, runs, x);
      var i := Position(runs, x.block, 1);
      var s := Inserted(runs, i, x);
      InsertedSorted(bs, runs, i, x);
      MergeAtSorted(bs, s, i);
      InsertedImage(env, bs, runs, i, x, b);
      MergeAtImage(env, bs, s, i, b);
      MergeAtImage(env, bs, MergeAt(bs, s, i), i - 1, b);
    }
  }

  /** Queueing is a map update, if and only if no merged length overflows: then the image changes on
      the blocks of the run and nowhere else; otherwise a block is lost. */
  lemma QueueUpdatesImage(env: Env, bs: nat, runs: seq<Run>, x: Run)
    requires 0 < bs < TWO_32 && Sorted(bs, runs) && Fields(runs) && Disjoint(bs, runs, x)
    requires 0 < x.len < TWO_32
    ensures (forall b :: Image(env, bs, QueueRuns(bs, runs, x), b) ==
                         if Has(bs, x, b) then Some(BlockOf(env, bs, x, b)) else Image(env, bs, runs, b))
            <==> !QueueWraps(bs, runs, x)
  {
    if QueueWraps(bs, runs, x) {
      var b := LostBlock(env, bs, runs, x);
    } else {
      forall b ensures Image(env, bs, QueueRuns(bs, runs, x), b) ==
                       if Has(bs, x, b) then Some(BlockOf(env, bs, x, b)) else Image(env, bs, runs, b)
      {
        QueueImageAt(env, bs, runs, x, b);
      }
    }
  }

  lemma QueueImageAt(env: Env, bs: nat, runs: seq<Run>, x: Run, b: nat)
    requires 0 < bs < TWO_32 && Sorted(bs, runs) && Fields(runs) && Disjoint(bs, runs, x)
    requires 0 < x.len < TWO_32 && !QueueWraps(bs, runs, x)
    ensures Image(env, bs, QueueRuns(bs, runs, x), b) ==
            if Has(bs, x, b) then Some(BlockOf(env, bs, x, b)) else Image(env, bs, runs, b)
  {
    if runs == [] || runs[0].block > x.block {
      assert QueueRuns(bs, runs, x) == Inserted(runs, 0, x);
      InsertedImage(env, bs, runs, 0, x, b);
    } else {
      PositionSplits(bs, runs, x);
      var i := Position(runs, x.block, 1);
      var s := Inserted(runs, i, x);
      InsertedSorted(bs, runs, i, x);
      InsertedImage(env, bs, runs, i, x, b);
      MergeAtSorted(bs, s, i);
      MergeAtImage(env, bs, s, i, b);
      MergeAtImage(env, bs, MergeAt(bs, s, i), i - 1, b);
    }
  }

  lemma LostBlock(env: Env, bs: nat, runs: seq<Run>, x: Run) returns (b: nat)
    requires 0 < bs < TWO_32 && Sorted(bs, runs) && Fields(runs) && Disjoint(bs, runs, x)
    requires 0 < x.len < TWO_32 && QueueWraps(bs, runs, x)
    ensures Has(bs, x, b) || Image(env, bs, runs, b).Some?
    ensures Image(env, bs, QueueRuns(bs, runs, x), b).None?
  {
    PositionSplits(bs, runs, x);
    var i := Position(runs, x.block, 1);
    var s := Inserted(runs, i, x);
    var t := MergeAt(bs, s, i);
    InsertedSorted(bs, runs, i, x);
    MergeAtSorted(bs, s, i);
    var j := if WrapsAt(bs, s, i) then s[i + 1] else t[i];
    assert j.len > 0;
    RoundUpPositive(j.len, bs);
    b := End(bs, j) - 1;
    InsertedImage(env, bs, runs, i, x, b);
    MergeAtImage(env, bs, s, i, b);
    MergeAtImage(env, bs, t, i - 1, b);
  }

  /** Two fills of 2^31 bytes at neighbouring blocks: the merged length is 0 and everything is lost. */
  lemma WrapExample(env: Env)
    ensures var runs := [Run(0, TWO_31, Fill(0))];
            var x := Run(TWO_31 / 4096, TWO_31, Fill(0));
            && Sorted(4096, runs) && Sized(runs) && Disjoint(4096, runs, x)
            && QueueRuns(4096, runs, x) == [Run(0, 0, Fill(0))]
            && Image(env, 4096, runs, 0).Some? && Image(env, 4096, QueueRuns(4096, runs, x), 0).None?
  {
    var runs := [Run(0, TWO_31, Fill(0))];
    var x := Run(TWO_31 / 4096, TWO_31, Fill(0));
    assert Position(runs, x.block, 1) == 1;
    var s := Inserted(runs, 1, x);
    assert s == [runs[0], x];
    assert Mergeable(4096, runs[0], x);
    assert MergeAt(4096, s, 1) == s;
    assert MergeAt(4096, s, 0) == [Merged(runs[0], x)];
  }

  // ----- Splitting

  lemma CutBytes(env: Env, bs: nat, r: Run, m: nat, q: int, o: nat)
    requires bs > 0 && 0 < m < r.len
    ensures q < m ==> Byte(env, Cut(bs, r, m).0, q, o) == Byte(env, r, q, o)
    ensures q >= 0 ==> Byte(env, Cut(bs, r, m).1, q, o) == Byte(env, r, q + m, o)
  {
  }

  lemma CutBlocks(bs: nat, r: Run, k: nat)
    requires bs > 0 && k * bs < r.len
    ensures Blocks(bs, Cut(bs, r, k * bs).0) == k && Cut(bs, r, k * bs).1.block == r.block + k
    ensures End(bs, Cut(bs, r, k * bs).1) == End(bs, r)
    ensures Blocks(bs, Cut(bs, r, k * bs).1) >= 1
  {
    DivModUnique(k, 0, bs);
    DivOfSum(k, 0, bs);
    DivOfSum(k, r.len - k * bs, bs);
    RoundUpPositive(0, bs);
    RoundUpPositive(r.len - k * bs, bs);
  }

  lemma CutKeepsFirst(env: Env, bs: nat, r: Run, k: nat, b: nat)
    requires bs > 0 && 0 < k * bs < r.len && r.block <= b < r.block + k
    ensures BlockOf(env, bs, Cut(bs, r, k * bs).0, b) == BlockOf(env, bs, r, b)
  {
    hide Byte;
    var n := b - r.block;
    MulMonotone(n + 1, k, bs);
    assert (n + 1) * bs == n * bs + bs;
    var was, now := BlockOf(env, bs, r, b), BlockOf(env, bs, Cut(bs, r, k * bs).0, b);
    forall o | 0 <= o < bs ensures now[o] == was[o] {
      CutBytes(env, bs, r, k * bs, n * bs + o, o);
    }
  }

  lemma CutKeepsSecond(env: Env, bs: nat, r: Run, k: nat, b: nat)
    requires bs > 0 && 0 < k * bs < r.len && Cut(bs, r, k * bs).1.block == r.block + k <= b
    ensures BlockOf(env, bs, Cut(bs, r, k * bs).1, b) == BlockOf(env, bs, r, b)
  {
    hide Byte;
    var n := b - (r.block + k);
    assert (b - r.block) * bs == (n + k) * bs == n * bs + k * bs;
    MulMonotone(0, n, bs);
    var was, now := BlockOf(env, bs, r, b), BlockOf(env, bs, Cut(bs, r, k * bs).1, b);
    forall o | 0 <= o < bs ensures now[o] == was[o] {
      CutBytes(env, bs, r, k * bs, n * bs + o, o);
    }
  }

  /** Cutting a run at a block boundary changes no block. */
  lemma CutKeepsBlocks(env: Env, bs: nat, r: Run, k: nat, b: nat)
    requires bs > 0 && 0 < k * bs < r.len
    ensures var (x, y) := Cut(bs, r, k * bs);
            && (Has(bs, r, b) <==> Has(bs, x, b) || Has(bs, y, b))
            && (Has(bs, x, b) ==> BlockOf(env, bs, x, b) == BlockOf(env, bs, r, b))
            && (Has(bs, y, b) ==> BlockOf(env, bs, y, b) == BlockOf(env, bs, r, b))
  {
    hide BlockOf, Blocks;
    CutBlocks(bs, r, k);
    var (x, y) := Cut(bs, r, k * bs);
    if Has(bs, x, b) {
      CutKeepsFirst(env, bs, r, k, b);
    }
    if Has(bs, y, b) {
      CutKeepsSecond(env, bs, r, k, b);
    }
  }

  /** A cut after no byte leaves the run, and one of no length before it. */
  lemma CutNothing(bs: nat, r: Run)
    requires bs > 0
    ensures Cut(bs, r, 0) == (r.(len := 0), r) && Blocks(bs, r.(len := 0)) == 0
  {
    RoundUpPositive(0, bs);
    assert 0 / bs == 0;
    if r.src.Data? {
      assert r.src.bytes[0..] == r.src.bytes;
    }
  }

  lemma CutKeepsImage(env: Env, bs: nat, r: Run, k: nat, b: nat)
    requires bs > 0 && k * bs < r.len
    ensures var (x, y) := Cut(bs, r, k * bs); Image(env, bs, [x, y], b) == Image(env, bs, [r], b)
  {
    hide Cut, BlockOf;
    var (x, y) := Cut(bs, r, k * bs);
    ImageOfPair(env, bs, r, r, b);
    ImageOfPair(env, bs, x, y, b);
    if k == 0 {
      CutNothing(bs, r);
    } else {
      MulMonotone(1, k, bs);
      CutKeepsBlocks(env, bs, r, k, b);
    }
  }

  /** Splitting a run changes no block and keeps the list in order. */
  lemma SplitKeepsImage(env: Env, bs: nat, runs: seq<Run>, i: nat, maxLen: nat)
    requires bs > 0 && Ordered(bs, runs) && Fields(runs) && i < |runs|
    ensures Ordered(bs, SplitRuns(bs, runs, i, maxLen)) && Fields(SplitRuns(bs, runs, i, maxLen))
    ensures forall b :: Image(env, bs, SplitRuns(bs, runs, i, maxLen), b) == Image(env, bs, runs, b)
  {
    var k := maxLen / bs;
    var r := runs[i];
    assert AlignDown(maxLen, bs) == k * bs;
    if r.len > k * bs {
      var (x, y) := Cut(bs, r, k * bs);
      var a, c := runs[..i], runs[i + 1..];
      var out := SplitRuns(bs, runs, i, maxLen);
      assert runs == a + [r] + c && out == a + [x, y] + c;
      forall b ensures Image(env, bs, out, b) == Image(env, bs, runs, b) {
        CutKeepsImage(env, bs, r, k, b);
        ImageSplice(env, bs, a, [r], c, b);
        ImageSplice(env, bs, a, [x, y], c, b);
      }
      CutBlocks(bs, r, k);
      SplitOrdered(bs, runs, i, x, y);
    }
  }

  lemma SplitOrdered(bs: nat, runs: seq<Run>, i: nat, x: Run, y: Run)
    requires bs > 0 && Ordered(bs, runs) && i < |runs|
    requires runs[i].block == x.block && End(bs, x) == y.block && End(bs, y) == End(bs, runs[i])
    ensures Ordered(bs, runs[..i] + [x, y] + runs[i + 1..])
  {
    var out := runs[..i] + [x, y] + runs[i + 1..];
    forall l | 0 <= l < |out|
      ensures out[l] == if l < i then runs[l] else if l == i then x else if l == i + 1 then y else runs[l - 1]
    {
    }
    forall l, m | 0 <= l < m < |out| ensures Before(bs, out[l], out[m]) {
      var l', m' := if l <= i then l else l - 1, if m <= i then m else m - 1;
      if l' < m' {
        assert Before(bs, runs[l'], runs[m']);
      }
    }
  }

  // ----- The list object

  class BackedBlockList {
    const blockSize: nat
    var runs: seq<Run>
    /** The index of the run last queued; None also where the C code keeps the address of a run that
        has just been merged away. */
    var lastUsed: Option<nat>

    constructor (bs: nat)
      requires 0 < bs < TWO_32
      ensures blockSize == bs && runs == [] && Valid()
    {
      blockSize := bs;
      runs := [];
      lastUsed := None;
    }

    ghost predicate Valid()
      reads this
    {
      && 0 < blockSize < TWO_32 && Ordered(blockSize, runs) && Fields(runs)
      && (lastUsed.Some? ==> lastUsed.value < |runs|)
    }

    /** queue_bb, starting the search at the cached run when it can. The result does not depend on the
        cache. */
    method Queue(x: Run)
      requires Valid() && Sorted(blockSize, runs) && Disjoint(blockSize, runs, x) && 0 < x.len < TWO_32
      modifies this
      ensures Valid() && Sorted(blockSize, runs) && runs == QueueRuns(blockSize, old(runs), x)
    {
      QueueKeepsOrder(blockSize, runs, x);
      OrderedIsSorted(blockSize, QueueRuns(blockSize, runs, x));
      if runs == [] {
        runs := [x];
        lastUsed := None;
        return;
      }
      if runs[0].block > x.block {
        runs := [x] + runs;
        lastUsed := if lastUsed.Some? then Some(lastUsed.value + 1) else None;
        return;
      }
      var i := FindSlot(x);
      var s := MergeAt(blockSize, Inserted(runs, i, x), i);
      lastUsed := if Mergeable(blockSize, s[i - 1], s[i]) then None else Some(i);
      runs := MergeAt(blockSize, s, i - 1);
    }

    /** The search loop of queue_bb. */
    method FindSlot(x: Run) returns (i: nat)
      requires Valid() && Sorted(blockSize, runs) && Disjoint(blockSize, runs, x)
      requires runs != [] && runs[0].block <= x.block
      ensures i == Position(runs, x.block, 1)
    {
      i := 1;
      if lastUsed.Some? && x.block > runs[lastUsed.value].block {
        i := lastUsed.value + 1;
      }
      SearchMayStartAt(blockSize, runs, x, i);
      while i < |runs| && runs[i].block < x.block
        invariant i <= Position(runs, x.block, 1) <= |runs|
      {
        i := i + 1;
      }
    }

    /** backed_block_split. */
    method Split(i: nat, maxLen: nat)
      requires Valid() && i < |runs|
      modifies this
      ensures Valid() && runs == SplitRuns(blockSize, old(runs), i, maxLen)
    {
      SplitKeepsImage(Env(map[], map[]), blockSize, runs, i, maxLen);
      var m := AlignDown(maxLen, blockSize);
      if runs[i].len <= m {
        return;
      }
      var (a, b) := Cut(blockSize, runs[i], m);
      runs := runs[..i] + [a, b] + runs[i + 1..];
      if lastUsed.Some? && lastUsed.value > i {
        lastUsed := Some(lastUsed.value + 1);
      }
    }

    /** backed_block_list_move of the first `n` runs; every call in sparse.c moves from the head. */
    method MoveFirst(to: BackedBlockList, n: nat)
      requires Valid() && to.Valid() && this != to && blockSize == to.blockSize && n <= |runs|
      requires forall j | 0 <= j < |to.runs| :: n > 0 ==> Before(blockSize, to.runs[j], runs[0])
      modifies this, to
      ensures Valid() && to.Valid()
      ensures runs == old(runs)[n..]
      ensures to.runs == MovedInto(old(to.runs), old(runs)[..n]) == old(to.runs) + old(runs)[..n]
    {
      if n == 0 {
        return;
      }
      var seg := runs[..n];
      MoveAppends(blockSize, to.runs, seg);
      lastUsed, to.lastUsed := None, None;
      runs := runs[n..];
      if to.runs == [] {
        to.runs := seg;
      } else {
        var k := 1;
        while k < |to.runs| && to.runs[k].block <= seg[0].block
          invariant k <= Position(to.runs, seg[0].block + 1, 1)
        {
          k := k + 1;
        }
        to.runs := to.runs[..k] + seg + to.runs[k..];
      }
    }
  }

  /** Runs that lie behind a whole list are appended to it. */
  lemma MoveAppends(bs: nat, to: seq<Run>, seg: seq<Run>)
    requires bs > 0 && Ordered(bs, to) && Ordered(bs, seg) && seg != []
    requires forall j | 0 <= j < |to| :: Before(bs, to[j], seg[0])
    ensures MovedInto(to, seg) == to + seg && Ordered(bs, to + seg)
  {
    AppendOrdered(bs, to, seg);
    if to != [] {
      var k := Position(to, seg[0].block + 1, 1);
      assert k < |to| ==> Before(bs, to[k], seg[0]);
      assert to[..k] + seg + to[k..] == to + seg;
    }
  }

  lemma AppendOrdered(bs: nat, a: seq<Run>, b: seq<Run>)
    requires bs > 0 && Ordered(bs, a) && Ordered(bs, b)
    requires b != [] && forall j | 0 <= j < |a| :: Before(bs, a[j], b[0])
    ensures Ordered(bs, a + b)
  {
    forall i, j | 0 <= i < j < |a + b| ensures Before(bs, (a + b)[i], (a + b)[j]) {
      if i < |a| <= j {
        assert j > |a| ==> Before(bs, b[0], b[j - |a|]);
      } else if j < |a| {
        assert Before(bs, a[i], a[j]);
      } else {
        assert Before(bs, b[i - |a|], b[j - |a|]);
      }
    }
  }

  /** Starting after any run that lies before `x` finds the same position. */
  lemma SearchMayStartAt(bs: nat, runs: seq<Run>, x: Run, i: nat)
    requires bs > 0 && Sorted(bs, runs) && runs != [] && Disjoint(bs, runs, x) && runs[0].block <= x.block
    requires 1 <= i <= |runs| && (i == 1 || runs[i - 1].block < x.block)
    ensures i <= Position(runs, x.block, 1)
  {
    var p := Position(runs, x.block, 1);
    assert p < i - 1 ==> Apart(bs, runs[p], runs[i - 1]);
  }
}
