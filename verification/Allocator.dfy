/** The block allocator at work: bitmaps that are marked in place, counters beside them, and the loops
    that choose a group. */
module Allocator {
  import opened Common
  import opened BlockBitmap
  import opened AllocModel
  import opened FsGeometry

  // ----- One group

  /** The clear bits of a group are exactly its free blocks. */
  ghost predicate BitsMatch(bm: seq<bv8>, g: Group, bpg: nat) {
    bpg <= 8 * |bm| && forall k | 0 <= k < bpg :: BitAt(bm, k) == !(g.firstFree <= k < g.firstFree + g.free)
  }

  lemma FreeBlocksAreClear(bm: seq<bv8>, g: Group, bpg: nat, n: nat)
    requires BitsMatch(bm, g, bpg) && n <= g.free && g.firstFree + g.free <= bpg
    ensures ClearIn(bm, g.firstFree, g.firstFree + n)
  {
  }

  lemma MarkedBits(was: seq<bv8>, now: seq<bv8>, g: Group, bpg: nat, n: nat)
    requires BitsMatch(was, g, bpg) && n <= g.free && SetIn(was, now, g.firstFree, g.firstFree + n, true)
    ensures BitsMatch(now, Taken(g, n), bpg)
  {
  }

  lemma ClearedBits(was: seq<bv8>, now: seq<bv8>, g: Group, bpg: nat, n: nat)
    requires BitsMatch(was, g, bpg) && n <= g.firstFree && SetIn(was, now, g.firstFree - n, g.firstFree, false)
    ensures BitsMatch(now, Returned(g, n), bpg)
  {
  }

  /** reserve_blocks: the count of free blocks and the first free block after it, and whether it
      succeeded. It refuses a request beyond the free count before it touches the bitmap. */
  method ReserveBlocks(bm: array<bv8>, free: nat, firstFree: nat, start: nat, num: nat)
    returns (ok: bool, free': nat, firstFree': nat)
    requires num <= free ==> start + num <= 8 * bm.Length
    modifies bm
    ensures ok <==> num <= free && ClearIn(old(bm[..]), start, start + num)
    ensures ok ==> SetIn(old(bm[..]), bm[..], start, start + num, true) && free' == free - num
    ensures ok ==> firstFree' == if start == firstFree then start + num else firstFree
    ensures num > free ==> bm[..] == old(bm[..])
    ensures !ok ==> free' == free && firstFree' == firstFree
  {
    free', firstFree' := free, firstFree;
    if num > free {
      return false, free, firstFree;
    }
    ok := MarkRange(bm, start, num);
    if ok {
      free' := free - num;
      if start == firstFree {
        firstFree' := start + num;
      }
    }
  }

  /** The overrun of init_bg: the blocks of a group behind the end of the device, computed on 32 bits;
      for a group inside the device it is a huge number. */
  function Overrun(base: nat, bpg: nat, total: nat): nat { (base + bpg - total) % TWO_32 }

  lemma OverrunMeans(base: nat, bpg: nat, total: nat)
    requires base < total && total + bpg < TWO_32
    ensures if base + bpg > total then Overrun(base, bpg, total) == base + bpg - total < bpg
            else if base + bpg == total then Overrun(base, bpg, total) == 0
            else Overrun(base, bpg, total) > bpg
  {
  }

  /** A new group: its header and what lies behind the device are taken. A group that is full from the start
      has no first free block; the end of its header stands for it. */
  function NewGroup(base: nat, bpg: nat, total: nat, header: nat): Group
    requires header <= LimitOf(base, bpg, total)
  {
    Group(base, header, LimitOf(base, bpg, total), LimitOf(base, bpg, total) - header, header, 0)
  }

  lemma NewBits(zero: seq<bv8>, one: seq<bv8>, two: seq<bv8>, g: Group, bpg: nat)
    requires bpg <= 8 * |zero| && g.header == g.firstFree <= g.limit == g.firstFree + g.free <= bpg
    requires ClearIn(zero, 0, bpg) && SetIn(zero, one, 0, g.header, true)
    requires SetIn(one, two, g.limit, bpg, true)
    ensures BitsMatch(two, g, bpg)
  {
  }

  lemma ZeroBytesAreClear(bm: seq<bv8>, n: nat)
    requires n <= 8 * |bm| && forall i | 0 <= i < |bm| :: bm[i] == 0
    ensures ClearIn(bm, 0, n)
  {
    forall k | 0 <= k < n ensures !BitAt(bm, k) {
      ByteIsItsBits(bm[k / 8]);
    }
  }

  lemma BitsBehindHeader(zero: seq<bv8>, one: seq<bv8>, header: nat, limit: nat, bpg: nat)
    requires header <= limit <= bpg <= 8 * |zero| && ClearIn(zero, 0, bpg) && SetIn(zero, one, 0, header, true)
    ensures ClearIn(zero, 0, header) && ClearIn(one, limit, bpg)
  {
    assert forall k | limit <= k < bpg :: BitAt(one, k) == BitAt(zero, k);
  }

  /** init_bg. */
  method InitGroup(base: nat, blockSize: nat, bpg: nat, total: nat, header: nat) returns (bm: array<bv8>, g: Group)
    requires bpg <= 8 * blockSize && base < total && total + bpg < TWO_32 && header <= LimitOf(base, bpg, total)
    ensures fresh(bm) && bm.Length == blockSize && g == NewGroup(base, bpg, total, header) && BitsMatch(bm[..], g, bpg)
  {
    hide BitAt, ClearIn, SetIn, BitsMatch, Overrun;
    bm := new bv8[blockSize](_ => 0);
    ghost var zero := bm[..];
    ZeroBytesAreClear(zero, bpg);
    var ok, free, firstFree;
    ghost var limit := LimitOf(base, bpg, total);
    BitsBehindNothing(zero, header, bpg);
    ok, free, firstFree := ReserveBlocks(bm, bpg, 0, 0, header);
    ghost var one := bm[..];
    BitsBehindHeader(zero, one, header, limit, bpg);
    var overrun := Overrun(base, bpg, total);
    OverrunMeans(base, bpg, total);
    if overrun > 0 {
      ok, free, firstFree := ReserveBlocks(bm, free, firstFree, if overrun <= bpg then bpg - overrun else 0, overrun);
    } else {
      NothingMarked(one, bpg);
    }
    g := Group(base, header, LimitOf(base, bpg, total), free, if free == 0 then header else firstFree, 0);
    if overrun > bpg {
      NothingMarked(one, bpg);
    }
    NewBits(zero, one, bm[..], g, bpg);
  }

  lemma BitsBehindNothing(zero: seq<bv8>, header: nat, bpg: nat)
    requires header <= bpg <= 8 * |zero| && ClearIn(zero, 0, bpg)
    ensures ClearIn(zero, 0, header)
  {
  }

  /** Regions made so far and regions still to come. */
  function Joined(done: seq<Region>, rest: Option<seq<Region>>): Option<seq<Region>> {
    if rest.None? then None else Some(done + rest.value)
  }

  lemma MoreRegions(none: seq<Region>, rest: Option<seq<Region>>)
    requires none == []
    ensures Joined(none, rest) == rest
  {
    if rest.Some? {
      assert [] + rest.value == rest.value;
    }
  }

  lemma JoinedStep(done: seq<Region>, r: Region, rest: Option<seq<Region>>)
    ensures Joined(done, if rest.None? then None else Some([r] + rest.value)) == Joined(done + [r], rest)
  {
    if rest.Some? {
      assert done + ([r] + rest.value) == done + [r] + rest.value;
    }
  }

  /** The groups of a new filesystem. */
  ghost predicate NewGroups(groups: seq<Group>, info: Info)
    requires info.Valid() && info.HeadersFit()
  {
    && |groups| == info.Groups()
    && forall i | 0 <= i < |groups| :: IsNewGroup(groups[i], info, i)
  }

  ghost predicate IsNewGroup(g: Group, info: Info, i: nat)
    requires info.Valid() && info.HeadersFit() && i < info.Groups()
  {
    GeometryFits(info, i);
    g == NewGroup(i * info.bpg, info.bpg, info.Total(), info.Header(i))
  }

  lemma NewGroupsAreSound(groups: seq<Group>, info: Info)
    requires info.Valid() && info.HeadersFit() && NewGroups(groups, info)
    ensures SoundAll(groups, info.bpg, info.Total())
  {
    hide Info.Header, Info.Groups, Info.Total, Info.HeadersFit;
    forall i | 0 <= i < |groups|
      ensures Sound(groups[i], info.bpg) && groups[i].firstBlock == i * info.bpg
           && groups[i].firstBlock + groups[i].limit <= info.Total()
    {
      assert IsNewGroup(groups[i], info, i);
      GeometryFits(info, i);
    }
  }

  // ----- All groups

  class BlockAllocator {
    const bpg: nat
    const total: nat
    var bgs: seq<Group>
    const bitmaps: seq<array<bv8>>

    ghost predicate Valid()
      reads this, bitmaps
    {
      && |bgs| == |bitmaps| && SoundAll(bgs, bpg, total)
      && (forall i, j | 0 <= i < j < |bitmaps| :: bitmaps[i] != bitmaps[j])
      && (forall i | 0 <= i < |bgs| :: BitsMatch(bitmaps[i][..], bgs[i], bpg))
    }

    /** block_allocator_init, after ext4_create_fs_aux_info. */
    constructor (info: Info)
      requires info.Valid() && info.HeadersFit()
      ensures Valid() && bpg == info.bpg && total == info.Total() && NewGroups(bgs, info)
    {
      hide SoundAll, BitsMatch, NewGroup, LimitOf, Info.Header, Info.Groups, Info.Total, Info.HeadersFit;
      var groups: seq<Group>, maps: seq<array<bv8>> := [], [];
      var count, len := CreateFsAuxInfo(info);
      for i := 0 to count
        invariant |groups| == |maps| == i
        invariant forall j | 0 <= j < i :: IsNewGroup(groups[j], info, j)
        invariant forall j | 0 <= j < i :: fresh(maps[j]) && BitsMatch(maps[j][..], groups[j], info.bpg)
        invariant forall j, k | 0 <= j < k < i :: maps[j] != maps[k]
      {
        GeometryFits(info, i);
        var header := GroupHeader(info, i);
        var bm, g := InitGroup(i * info.bpg, info.blockSize, info.bpg, len, header);
        groups, maps := groups + [g], maps + [bm];
      }
      NewGroupsAreSound(groups, info);
      bpg, total, bgs, bitmaps := info.bpg, len, groups, maps;
    }

    /** ext4_allocate_blocks_from_block_group; None stands for EXT4_ALLOCATE_FAILED. */
    method FromGroup(len: nat, k: nat) returns (r: Option<Region>)
      requires Valid() && k < |bgs|
      modifies this, bitmaps
      ensures Valid() && |bgs| == old(|bgs|)
      ensures r == if old(bgs[k].free) < len then None else Some(NextRegion(old(bgs), k, len))
      ensures bgs == if r.Some? then old(bgs)[k := Taken(old(bgs[k]), len)] else old(bgs)
    {
      if bgs[k].free < len {
        return None;
      }
      assert Sound(bgs[k], bpg);
      ghost var was := bitmaps[k][..];
      FreeBlocksAreClear(was, bgs[k], bpg, len);
      var block := bgs[k].firstFree;
      var ok, free, firstFree := ReserveBlocks(bitmaps[k], bgs[k].free, block, block, len);
      r := Some(Region(bgs[k].firstBlock + block, len, k));
      TakenIsSound(bgs, k, len, bpg, total);
      MarkedBits(was, bitmaps[k][..], bgs[k], bpg, len);
      bgs := bgs[k := bgs[k].(free := free, firstFree := firstFree, used := bgs[k].used + len)];
    }

    /** ext4_allocate_contiguous_blocks: the first group with enough room. */
    method AllocateContiguous(len: nat) returns (r: Option<Region>)
      requires Valid() && len > 0
      modifies this, bitmaps
      ensures Valid() && |bgs| == old(|bgs|)
      ensures var c := Contiguous(old(bgs), len);
              if c.None? then r == None && bgs == old(bgs) else r == Some(c.value.region) && bgs == c.value.bgs
    {
      var i := 0;
      while i < |bgs|
        invariant i <= |bgs| && Valid() && bgs == old(bgs)
        invariant FirstFit(bgs, len, 0) == FirstFit(bgs, len, i)
      {
        r := FromGroup(len, i);
        if r.Some? {
          return;
        }
        i := i + 1;
      }
      r := None;
    }

    /** ext4_allocate_partial. */
    method AllocatePartial(len: nat) returns (r: Option<Region>)
      requires Valid() && len > 0
      modifies this, bitmaps
      ensures Valid() && |bgs| == old(|bgs|)
      ensures var p := Partial(old(bgs), len);
              if p.None? then r == None && bgs == old(bgs) else r == Some(p.value.region) && bgs == p.value.bgs
    {
      var i := 0;
      while i < |bgs| && bgs[i].used != 0
        invariant i <= |bgs| && FirstUnused(bgs, 0) == FirstUnused(bgs, i)
      {
        i := i + 1;
      }
      if i == |bgs| {
        return None;
      }
      assert Sound(bgs[i], bpg);
      if len <= bgs[i].free {
        r := AllocateContiguous(len);
      } else {
        r := FromGroup(bgs[i].free, i);
      }
    }

    /** ext4_allocate_multiple_contiguous_blocks, where its loop ends. */
    method AllocateMultiple(len: nat) returns (r: Option<seq<Region>>)
      requires Valid() && !Stuck(bgs, len)
      modifies this, bitmaps
      ensures Valid() && |bgs| == old(|bgs|)
      ensures (bgs, r) == Multiple(old(bgs), len, bpg, total)
    {
      hide SoundAll, BitsMatch, Partial, Stuck;
      var left: nat, regions: seq<Region> := len, [];
      MoreRegions([], Multiple(bgs, len, bpg, total).1);
      while left > 0
        invariant left <= len && Valid() && |bgs| == old(|bgs|) && !Stuck(bgs, left)
        invariant Multiple(old(bgs), len, bpg, total) ==
                  (Multiple(bgs, left, bpg, total).0, Joined(regions, Multiple(bgs, left, bpg, total).1))
      {
        ghost var before := bgs;
        var p := AllocatePartial(left);
        if p.None? {
          return None;
        }
        PartialKeepsSound(before, left, bpg, total);
        JoinedStep(regions, p.value, Multiple(bgs, left - p.value.len, bpg, total).1);
        left, regions := left - p.value.len, regions + [p.value];
      }
      assert regions + [] == regions;
      r := Some(regions);
    }

    /** do_allocate, where it ends. */
    method DoAllocate(len: nat) returns (r: Option<seq<Region>>)
      requires Valid() && len > 0 && Ends(bgs, len)
      modifies this, bitmaps
      ensures Valid() && |bgs| == old(|bgs|)
      ensures (bgs, r) == Allocate(old(bgs), len, bpg, total)
    {
      hide SoundAll, BitsMatch, Multiple, Stuck;
      var one := AllocateContiguous(len);
      if one.Some? {
        return Some([one.value]);
      }
      r := AllocateMultiple(len);
    }

    /** free_blocks: the last blocks of a region go back. */
    method GiveBack(region: Region, n: nat)
      requires Valid() && OnTop(bgs, region) && n <= region.len && Within(bgs, region)
      modifies this, bitmaps
      ensures Valid() && bgs == old(bgs)[region.bg := Returned(old(bgs[region.bg]), n)]
    {
      var k := region.bg;
      assert Sound(bgs[k], bpg);
      ghost var was := bitmaps[k][..];
      ClearRange(bitmaps[k], bgs[k].firstFree, n);
      ClearedBits(was, bitmaps[k][..], bgs[k], bpg, n);
      bgs := bgs[k := bgs[k].(free := bgs[k].free + n, firstFree := bgs[k].firstFree - n)];
    }
  }

  /** A last group of exactly the size of its header is not dropped. With the parameters make_ext4fs chooses, a
      device of 33046 blocks has two groups with headers of 278 blocks, and the second one is nothing else. It
      has nothing to give, and a file that needs more than the first group has keeps the allocator going for
      ever. */
  lemma ExactHeaderStalls(bgs: seq<Group>, n: nat, turns: nat)
    requires ExactDevice().Valid() && ExactDevice().HeadersFit() && NewGroups(bgs, ExactDevice()) && n > 32490
    ensures |bgs| == 2 && bgs[1].free == 0 && FirstFit(bgs, n, 0) == 2 && !Loop(bgs, n, false).After(turns).Ended()
  {
    hide Loop.After, Partial, Stuck, FirstFit, ExactDevice, Info.Header, Info.Total, Info.Groups, Info.HeadersFit;
    ExactHeaders();
    var a, b := bgs[0], bgs[1];
    assert IsNewGroup(a, ExactDevice(), 0) && IsNewGroup(b, ExactDevice(), 1);
    assert bgs == [a, b];
    TwoGroups(a, b, n);
    StuckNeverEnds(Loop(bgs, n, false), turns);
  }

  function ExactDevice(): Info { MakeInfo(4096, 33046, 32768, 33046 / 4, 256) }

  lemma ExactHeaders()
    ensures var info := ExactDevice();
            && info.Valid() && info.bpg == 32768 && info.Groups() == 2 && info.Total() == 33046
            && info.Header(0) == info.Header(1) == 278 && info.HeadersFit()
  {
    var info := ExactDevice();
    assert info == Info(4096, 33046, 32768, 4144, 256, 15, true);
    assert info.TableBlocks() == 259 && info.DescBlocks() == 1 && info.AllGroups() == 2;
  }

  lemma TwoGroups(a: Group, b: Group, n: nat)
    requires a.used == b.used == 0 && b.free == 0 && a.free < n
    ensures FirstFit([a, b], n, 0) == 2 && Stuck([a, b], n)
  {
    var bgs := [a, b];
    assert FirstFit(bgs, n, 0) == FirstFit(bgs, n, 1) == FirstFit(bgs, n, 2);
    assert Unused(bgs, 0) == 0 && Unused(bgs, 1) == a.free;
    assert StuckAt(bgs, n, 1);
  }
}
