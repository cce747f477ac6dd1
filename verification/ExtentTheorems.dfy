/** What do_inode_allocate_extents makes of an allocation, and that the extent walker finds every block
    of the file through it. */
module ExtentTheorems {
  import opened Common
  import opened AllocModel
  import opened ExtentModel

  /** The inode's extent root, the leaf blocks queued for the image, and the regions the caller goes on
      with. */
  datatype FileMap = FileMap(root: Root, leaves: map<nat, Node>, list: seq<Region>, oob: seq<Region>)

  /** get_block_list_extents, on a block list that is to be filled. */
  function Walk(m: FileMap, blocks: seq<nat>): (r: seq<nat>)
    ensures |r| == |blocks|
  {
    match m.root
    case Direct(node) => Fill(blocks, node.Slots())
    case Indexed(leaf) => if leaf in m.leaves then Fill(blocks, m.leaves[leaf].Slots()) else blocks
  }

  /** reduce_allocation by one block, right after allocate_blocks: the list's last pointer still names
      the first region. When that region is a single block, the whole list is dropped. */
  function Reduced(bgs: seq<Group>, regions: seq<Region>): (seq<Group>, seq<Region>)
    requires regions != [] && regions[0].bg < |bgs| && 0 < regions[0].len <= bgs[regions[0].bg].firstFree
  {
    var r := regions[0];
    (bgs[r.bg := Returned(bgs[r.bg], 1)], if r.len > 1 then regions[0 := r.(len := r.len - 1)] else [])
  }

  /** do_inode_allocate_extents for a file of `blockLen` blocks. */
  function AllocateExtents(bgs: seq<Group>, blockLen: nat, blockSize: nat, bpg: nat, total: nat)
    : (seq<Group>, Option<FileMap>)
    requires SoundAll(bgs, bpg, total) && Ends(bgs, blockLen + 1)
  {
    var (bgs1, regions) := Allocate(bgs, blockLen + 1, bpg, total);
    if regions.None? then (bgs1, None)
    else
      NewRegions(bgs, blockLen + 1, bpg, total, []);
      var n := |regions.value|;
      if n <= 3 then
        var (bgs2, list) := Reduced(bgs1, regions.value);
        (bgs2, Some(FileMap(Direct(Node(n, Written(list, 0))), map[], list, [])))
      else
        ReserveOne(regions.value);
        var p := Reserve(regions.value, 1).value;
        if blockSize - 1 < n then (bgs1, None)
        else
          var leaf := p.oob[0].block;
          (bgs1, Some(FileMap(Indexed(leaf), map[leaf := Node(n, Written(p.list, 0))], p.list, p.oob)))
  }

  // ----- Fresh regions

  /** Everything allocated is apart from what was live, and the first region is on top of its group. */
  lemma NewRegions(bgs: seq<Group>, n: nat, bpg: nat, total: nat, live: seq<Region>)
    requires SoundAll(bgs, bpg, total) && n > 0 && Safe(bgs, live) && Ends(bgs, n)
    ensures var (bgs1, regions) := Allocate(bgs, n, bpg, total);
            regions.Some? ==>
              && regions.value != [] && TotalLen(regions.value) == n
              && (forall i | 0 <= i < |regions.value| :: regions.value[i].len > 0)
              && Safe(bgs1, live + regions.value) && OnTop(bgs1, regions.value[0])
              && Within(bgs1, regions.value[0]) && 0 < regions.value[0].block
              && regions.value[0].len <= bgs1[regions.value[0].bg].firstFree
  {
    hide Multiple, Contiguous;
    var (bgs1, regions) := Allocate(bgs, n, bpg, total);
    AllocateKeepsSafe(bgs, n, bpg, total, live);
    FirstRegionOnTop(bgs, n, bpg, total);
    AllocateIsPositive(bgs, n, bpg, total);
    if regions.Some? {
      var all := live + regions.value;
      assert all[|live|] == regions.value[0];
      assert Within(bgs1, all[|live|]);
      assert Sound(bgs1[regions.value[0].bg], bpg);
    }
  }

  /** Reserving one block of several regions: it is the first one, if the first region has another. */
  lemma ReserveOne(regions: seq<Region>)
    requires |regions| > 1 && regions[0].len > 0 && regions[1].len > 0
    ensures Reserve(regions, 1).Some?
    ensures var p := Reserve(regions, 1).value; var r := regions[0];
            p == if r.len > 1
                 then Parted(regions[0 := Region(r.block + 1, r.len - 1, r.bg)], [Region(r.block, 1, r.bg)])
                 else Parted(regions[..1], regions[1..])
  {
    var r := regions[0];
    if r.len > 1 {
      assert Cut(regions, 1) == (0, 1);
      assert regions[0 := Region(r.block + 1, r.len - 1, r.bg)] == [Region(r.block + 1, r.len - 1, r.bg)] + regions[1..];
      assert regions[..0] + [Region(r.block, 1, r.bg)] == [Region(r.block, 1, r.bg)];
    } else {
      assert Cut(regions[1..], 0) == (0, 0);
    }
  }

  /** The first group that is asked has more than one block to give: the caller can tell beforehand. */
  predicate Roomy(bgs: seq<Group>, n: nat) {
    FirstFit(bgs, n, 0) < |bgs| || (FirstUnused(bgs, 0) < |bgs| && bgs[FirstUnused(bgs, 0)].free > 1)
  }

  lemma FirstRegionLength(bgs: seq<Group>, n: nat, bpg: nat, total: nat)
    requires SoundAll(bgs, bpg, total) && n > 1 && Ends(bgs, n) && Allocate(bgs, n, bpg, total).1.Some?
    ensures Allocate(bgs, n, bpg, total).1.value != []
    ensures Allocate(bgs, n, bpg, total).1.value[0].len > 1 <==> Roomy(bgs, n)
  {
    if Contiguous(bgs, n).None? {
      PartialKeepsSound(bgs, n, bpg, total);
    }
  }

  // ----- What is live afterwards

  lemma ShrinkKeepsSafe(bgs: seq<Group>, all: seq<Region>, i: nat, r: Region)
    requires Safe(bgs, all) && i < |all| && r.bg == all[i].bg
    requires all[i].block <= r.block && r.block + r.len <= all[i].block + all[i].len
    ensures Safe(bgs, all[i := r])
  {
    var now := all[i := r];
    forall j, k | 0 <= j < k < |now| ensures Apart(now[j], now[k]) {
      assert Apart(all[j], all[k]);
    }
  }

  lemma AppendKeepsSafe(bgs: seq<Group>, all: seq<Region>, r: Region)
    requires Safe(bgs, all) && Within(bgs, r) && forall i | 0 <= i < |all| :: Apart(all[i], r)
    ensures Safe(bgs, all + [r])
  {
    var now := all + [r];
    forall j, k | 0 <= j < k < |now| ensures Apart(now[j], now[k]) {
      if k < |all| {
        assert Apart(all[j], all[k]);
      }
    }
  }

  /** Cutting the first block off a region leaves it apart from what remains. */
  lemma LeafIsApart(bgs: seq<Group>, all: seq<Region>, i: nat)
    requires Safe(bgs, all) && i < |all| && all[i].len > 1
    requires forall j | 0 <= j < |all| :: all[j].len > 0
    ensures var r := all[i];
            Safe(bgs, all[i := Region(r.block + 1, r.len - 1, r.bg)] + [Region(r.block, 1, r.bg)])
  {
    hide Safe;
    var r := all[i];
    var rest, leaf := Region(r.block + 1, r.len - 1, r.bg), Region(r.block, 1, r.bg);
    var now := all[i := rest];
    ShrinkKeepsSafe(bgs, all, i, rest);
    forall j | 0 <= j < |now| ensures Apart(now[j], leaf) {
      if j != i {
        PairApart(bgs, all, i, j);
      }
    }
    assert Within(bgs, leaf) by {
      OneWithin(bgs, all, i);
    }
    AppendKeepsSafe(bgs, now, leaf);
  }

  lemma OneWithin(bgs: seq<Group>, all: seq<Region>, i: nat)
    requires Safe(bgs, all) && i < |all|
    ensures Within(bgs, all[i])
  {
  }

  lemma PairApart(bgs: seq<Group>, all: seq<Region>, i: nat, j: nat)
    requires Safe(bgs, all) && i < |all| && j < |all| && i != j
    ensures Apart(all[i], all[j])
  {
    if i < j {
      assert Apart(all[i], all[j]);
    } else {
      assert Apart(all[j], all[i]);
    }
  }

  lemma ShortRegions(bgs: seq<Group>, bpg: nat, total: nat, all: seq<Region>)
    requires SoundAll(bgs, bpg, total) && Safe(bgs, all)
    ensures forall i | 0 <= i < |all| :: all[i].len <= bpg
  {
    forall i | 0 <= i < |all| ensures all[i].len <= bpg {
      assert Within(bgs, all[i]);
      assert Sound(bgs[all[i].bg], bpg);
    }
  }

  lemma ShrunkTotal(regions: seq<Region>, r: Region)
    requires regions != [] && r.len == regions[0].len - 1
    ensures TotalLen(regions[0 := r]) == TotalLen(regions) - 1
  {
    assert regions[0 := r][1..] == regions[1..];
  }

  // ----- Main results

  /** Every block of the file is found, in order, and nothing else of the list is touched. */
  ghost predicate MapsAll(m: FileMap, blockLen: nat) {
    && TotalLen(m.list) == blockLen
    && forall blocks: seq<nat> | |blocks| >= blockLen :: Walk(m, blocks) == Blocks(m.list) + blocks[blockLen..]
  }

  /** The walker leaves the place of the file's last block as it was. */
  ghost predicate LosesLast(m: FileMap, blockLen: nat)
    requires blockLen > 0
  {
    forall blocks: seq<nat> | |blocks| >= blockLen :: Walk(m, blocks)[blockLen - 1] == blocks[blockLen - 1]
  }

  lemma RegionsAreMapped(m: FileMap, n: nat, blockLen: nat, bpg: nat)
    requires m.root.Direct? ==> m.root.node == Node(n, Written(m.list, 0))
    requires m.root.Indexed? ==> m.root.leaf in m.leaves && m.leaves[m.root.leaf] == Node(n, Written(m.list, 0))
    requires n == |m.list| && TotalLen(m.list) == blockLen && bpg < TWO_16
    requires forall k | 0 <= k < |m.list| :: m.list[k].len <= bpg
    ensures MapsAll(m, blockLen)
  {
    var node := Node(n, Written(m.list, 0));
    assert node.Slots() == Written(m.list, 0) + Zeros(0);
    forall blocks: seq<nat> | |blocks| >= blockLen
      ensures Walk(m, blocks) == Blocks(m.list) + blocks[blockLen..]
    {
      WalkRestoresBlocks(m.list, 0, 0, blocks);
      assert blocks[..0] + Blocks(m.list) == Blocks(m.list);
    }
  }

  lemma Shortened(m: FileMap, n: nat, blockLen: nat)
    requires m.root.Direct? ==> m.root.node == Node(n, Written(m.list, 0)) && m.list == []
    requires m.root.Indexed? ==> m.root.leaf in m.leaves && m.leaves[m.root.leaf] == Node(n, Written(m.list, 0))
    requires |m.list| <= 1 <= n && TotalLen(m.list) < blockLen && forall k | 0 <= k < |m.list| :: m.list[k].len == 1
    ensures LosesLast(m, blockLen)
  {
    var node := Node(n, Written(m.list, 0));
    assert node.Slots() == Written(m.list, 0) + Zeros(n - |m.list|);
    forall blocks: seq<nat> | |blocks| >= blockLen ensures Walk(m, blocks)[blockLen - 1] == blocks[blockLen - 1] {
      WalkRestoresBlocks(m.list, 0, n - |m.list|, blocks);
    }
  }

  /** A file of at most three regions: the spare block goes back to the first region's group. */
  lemma DirectRoundTrip(bgs: seq<Group>, regions: seq<Region>, bpg: nat, total: nat, live: seq<Region>, blockLen: nat)
    requires SoundAll(bgs, bpg, total) && Safe(bgs, live + regions) && bpg < TWO_16 && blockLen > 0
    requires regions != [] && OnTop(bgs, regions[0]) && 0 < regions[0].len <= bgs[regions[0].bg].firstFree
    requires TotalLen(regions) == blockLen + 1
    requires forall i | 0 <= i < |live| :: live[i].len > 0
    requires forall i | 0 <= i < |regions| :: regions[i].len > 0
    ensures var (bgs2, list) := Reduced(bgs, regions);
            var m := FileMap(Direct(Node(|regions|, Written(list, 0))), map[], list, []);
            if regions[0].len > 1
            then SoundAll(bgs2, bpg, total) && Safe(bgs2, live + list + []) && MapsAll(m, blockLen)
            else LosesLast(m, blockLen)
  {
    hide Safe, SoundAll, Written, Blocks, MapsAll, LosesLast;
    var (bgs2, list) := Reduced(bgs, regions);
    var m := FileMap(Direct(Node(|regions|, Written(list, 0))), map[], list, []);
    if regions[0].len > 1 {
      var all := live + regions;
      assert all[|live|] == regions[0];
      ReturningKeepsSafe(bgs, bpg, total, all, |live|, 1);
      assert all[|live| := list[0]] == live + list + [];
      ShortRegions(bgs2, bpg, total, live + list + []);
      forall k | 0 <= k < |list| ensures list[k].len <= bpg {
        assert (live + list + [])[|live| + k] == list[k];
      }
      ShrunkTotal(regions, list[0]);
      RegionsAreMapped(m, |regions|, blockLen, bpg);
    } else {
      Shortened(m, |regions|, blockLen);
    }
  }

  /** A file of more regions: the spare block holds the extents. */
  lemma IndexedRoundTrip(bgs: seq<Group>, regions: seq<Region>, bpg: nat, total: nat, live: seq<Region>, blockLen: nat)
    requires SoundAll(bgs, bpg, total) && Safe(bgs, live + regions) && bpg < TWO_16 && blockLen > 0
    requires |regions| > 3 && TotalLen(regions) == blockLen + 1
    requires forall i | 0 <= i < |live| :: live[i].len > 0
    requires forall i | 0 <= i < |regions| :: regions[i].len > 0
    ensures Reserve(regions, 1).Some? && Reserve(regions, 1).value.oob != []
    ensures var p := Reserve(regions, 1).value;
            var leaf := p.oob[0].block;
            var m := FileMap(Indexed(leaf), map[leaf := Node(|regions|, Written(p.list, 0))], p.list, p.oob);
            if regions[0].len > 1
            then Safe(bgs, live + p.list + p.oob) && MapsAll(m, blockLen)
            else LosesLast(m, blockLen)
  {
    hide Safe, SoundAll, Written, Blocks, MapsAll, LosesLast, Reserve;
    ReserveOne(regions);
    var p := Reserve(regions, 1).value;
    var leaf := p.oob[0].block;
    var m := FileMap(Indexed(leaf), map[leaf := Node(|regions|, Written(p.list, 0))], p.list, p.oob);
    if regions[0].len > 1 {
      var all := live + regions;
      assert all[|live|] == regions[0];
      LeafIsApart(bgs, all, |live|);
      assert all[|live| := p.list[0]] + p.oob == live + p.list + p.oob;
      ShortRegions(bgs, bpg, total, live + p.list + p.oob);
      forall k | 0 <= k < |p.list| ensures p.list[k].len <= bpg {
        assert (live + p.list + p.oob)[|live| + k] == p.list[k];
      }
      ShrunkTotal(regions, p.list[0]);
      RegionsAreMapped(m, |regions|, blockLen, bpg);
    } else {
      AtLeastOneEach(regions);
      assert p.list[1..] == [];
      Shortened(m, |regions|, blockLen);
    }
  }

  lemma {:induction false} AtLeastOneEach(regions: seq<Region>)
    requires forall i | 0 <= i < |regions| :: regions[i].len > 0
    ensures TotalLen(regions) >= |regions|
  {
    if regions != [] {
      AtLeastOneEach(regions[1..]);
    }
  }

  /** Extent records round-trip: on a filesystem in any reachable state, the extents written for a file
      lead the walker to every block of the file exactly if the first region has a block to spare;
      everything live stays apart. Otherwise the end of the file is not mapped at all. */
  lemma ExtentsRoundTrip(bgs: seq<Group>, blockLen: nat, blockSize: nat, bpg: nat, total: nat, live: seq<Region>)
    requires SoundAll(bgs, bpg, total) && Safe(bgs, live) && blockLen > 0 && bpg < TWO_16
    requires Ends(bgs, blockLen + 1) && forall i | 0 <= i < |live| :: live[i].len > 0
    requires var regions := Allocate(bgs, blockLen + 1, bpg, total).1;
             regions.Some? ==> 12 + 12 * |regions.value| <= blockSize
    ensures var (bgs', m) := AllocateExtents(bgs, blockLen, blockSize, bpg, total);
            && (m.Some? <==> Allocate(bgs, blockLen + 1, bpg, total).1.Some?)
            && (m.Some? ==>
                  if Roomy(bgs, blockLen + 1)
                  then SoundAll(bgs', bpg, total) && Safe(bgs', live + m.value.list + m.value.oob)
                    && MapsAll(m.value, blockLen)
                  else LosesLast(m.value, blockLen))
  {
    hide Safe, SoundAll, Written, Blocks, MapsAll, LosesLast, Reserve, Allocate, Roomy, Reduced;
    var (bgs1, regions) := Allocate(bgs, blockLen + 1, bpg, total);
    if regions.Some? {
      NewRegions(bgs, blockLen + 1, bpg, total, live);
      FirstRegionLength(bgs, blockLen + 1, bpg, total);
      if |regions.value| <= 3 {
        DirectRoundTrip(bgs1, regions.value, bpg, total, live, blockLen);
      } else {
        IndexedRoundTrip(bgs1, regions.value, bpg, total, live, blockLen);
      }
    }
  }

  /** No block of a mapped file is reached twice, and none of them is the leaf block. */
  lemma MappedBlocksDiffer(bgs: seq<Group>, m: FileMap, live: seq<Region>, blockLen: nat, i: nat)
    requires Safe(bgs, live + m.list + m.oob) && MapsAll(m, blockLen) && i < blockLen
    requires forall k | 0 <= k < |m.oob| :: m.oob[k].len > 0
    ensures forall j | i < j < blockLen :: Blocks(m.list)[i] != Blocks(m.list)[j]
    ensures forall k | 0 <= k < |m.oob| :: Blocks(m.list)[i] != m.oob[k].block
  {
    hide Blocks, MapsAll;
    var all := live + m.list + m.oob;
    assert TotalLen(m.list) == blockLen by {
      MappedLength(m, blockLen);
    }
    forall a, b | 0 <= a < b < |m.list| ensures Apart(m.list[a], m.list[b]) {
      assert all[|live| + a] == m.list[a] && all[|live| + b] == m.list[b];
      PairApart(bgs, all, |live| + a, |live| + b);
    }
    forall j | i < j < blockLen ensures Blocks(m.list)[i] != Blocks(m.list)[j] {
      BlocksDiffer(m.list, i, j);
    }
    var h := BlockIsHeld(m.list, i);
    forall k | 0 <= k < |m.oob| ensures Blocks(m.list)[i] != m.oob[k].block {
      assert all[|live| + h] == m.list[h] && all[|live| + |m.list| + k] == m.oob[k];
      PairApart(bgs, all, |live| + h, |live| + |m.list| + k);
    }
  }

  lemma MappedLength(m: FileMap, blockLen: nat)
    requires MapsAll(m, blockLen)
    ensures TotalLen(m.list) == blockLen
  {
  }
}
