/** The loops around the extents: walking an allocation, writing its records, and reading them back into
    a block list. */
module ExtentTool {
  import opened Common
  import opened AllocModel
  import opened Allocator
  import opened ExtentModel
  import opened ExtentTheorems

  /** struct block_allocation: the regions from the iterator on, and those set aside. The iterator's
      offset within its region is 0. */
  class Allocation {
    var list: seq<Region>
    var iter: nat
    var oob: seq<Region>

    constructor (regions: seq<Region>)
      ensures list == regions && iter == 0 && oob == []
    {
      list, iter, oob := regions, 0, [];
    }

    /** get_block. */
    method GetBlock(block: nat) returns (r: Option<nat>)
      requires iter <= |list|
      ensures var blocks := Blocks(list[iter..]);
              r == if block < |blocks| then Some(blocks[block]) else None
    {
      var i: nat, left: nat := iter, block;
      while i < |list|
        invariant iter <= i <= |list|
        invariant block < |Blocks(list[iter..])| <==> left < |Blocks(list[i..])|
        invariant left < |Blocks(list[i..])| ==> Blocks(list[iter..])[block] == Blocks(list[i..])[left]
      {
        assert list[i..][1..] == list[i + 1..];
        if left < list[i].len {
          return Some(list[i].block + left);
        }
        left := left - list[i].len;
        i := i + 1;
      }
      r := None;
    }

    /** The loop of do_split_allocation: the region that the cut falls into. */
    method FindCut(n: nat) returns (k: nat, left: nat)
      ensures (k, left) == Cut(list, n)
    {
      hide Cut;
      k, left := 0, n;
      assert list[0..] == list;
      while k < |list| && left >= list[k].len
        invariant k <= |list|
        invariant Cut(list, n) == (k + Cut(list[k..], left).0, Cut(list[k..], left).1)
      {
        CutStep(list, k, left);
        left, k := left - list[k].len, k + 1;
      }
      CutEnd(list, k, left);
    }

    /** reserve_oob_blocks right after allocation; false stands for -1. */
    method ReserveOob(n: nat) returns (ok: bool)
      requires iter == 0 && oob == [] && forall i | 0 <= i < |list| :: list[i].len > 0
      modifies this
      ensures ok == Reserve(old(list), n).Some?
      ensures if ok then Parted(list, oob) == Reserve(old(list), n).value && iter == 0
              else list == old(list) && oob == []
    {
      hide Cut;
      var k, left := FindCut(n);
      if k == |list| {
        return false;
      }
      if left > 0 {
        var r := list[k];
        CutParts(list, k, left);
        list := list[..k] + [Region(r.block, left, r.bg), Region(r.block + left, r.len - left, r.bg)] + list[k + 1..];
        iter := k + 1;
        MoveOut(0);
      } else if k > 0 {
        MoveOut(k);
      }
      ok := true;
    }

    /** The loop that takes out regions from `from` on, as far as the iterator or the end. */
    method MoveOut(from: nat)
      requires from <= |list| && iter <= |list|
      modifies this
      ensures var stop := if from <= old(iter) then old(iter) else |old(list)|;
              && list == old(list)[..from] + old(list)[stop..]
              && oob == old(oob) + old(list)[from..stop]
              && iter == if from <= old(iter) then from else old(iter)
    {
      ghost var stop := if from <= iter then iter else |list|;
      ghost var moved := 0;
      while from < |list| && from != iter
        invariant from <= from + moved <= stop
        invariant list == old(list)[..from] + old(list)[from + moved..]
        invariant oob == old(oob) + old(list)[from..from + moved]
        invariant iter == if from <= old(iter) then old(iter) - moved else old(iter)
        decreases |list|
      {
        assert list[from] == old(list)[from + moved];
        oob := oob + [list[from]];
        list := list[..from] + list[from + 1..];
        if iter > from {
          iter := iter - 1;
        }
        moved := moved + 1;
      }
    }
  }

  lemma CutStep(list: seq<Region>, k: nat, left: nat)
    requires k < |list| && left >= list[k].len
    ensures var (a, b) := Cut(list[k + 1..], left - list[k].len); Cut(list[k..], left) == (1 + a, b)
  {
    assert list[k..][1..] == list[k + 1..];
  }

  lemma CutEnd(list: seq<Region>, k: nat, left: nat)
    requires k <= |list| && (k < |list| ==> left < list[k].len)
    ensures Cut(list[k..], left) == (0, left)
  {
  }

  lemma CutParts(list: seq<Region>, k: nat, left: nat)
    requires k < |list| && 0 < left < list[k].len
    ensures var r := list[k];
            var a, b := Region(r.block, left, r.bg), Region(r.block + left, r.len - left, r.bg);
            var now := list[..k] + [a, b] + list[k + 1..];
            && |now| == |list| + 1
            && now[..0] + now[k + 1..] == [b] + list[k + 1..]
            && [] + now[0..k + 1] == list[..k] + [a]
  {
  }

  /** The loop that writes one record per region. */
  method WriteExtents(regions: seq<Region>) returns (extents: seq<Extent>)
    ensures extents == Written(regions, 0)
  {
    extents := [];
    var fileBlock: nat, i := 0, 0;
    while i < |regions|
      invariant i <= |regions| && extents + Written(regions[i..], fileBlock) == Written(regions, 0)
    {
      assert regions[i..][1..] == regions[i + 1..];
      extents := extents + [Extent(fileBlock, regions[i].len % TWO_16, regions[i].block)];
      fileBlock, i := fileBlock + regions[i].len, i + 1;
    }
  }

  /** do_inode_allocate_extents. */
  method InodeAllocateExtents(a: BlockAllocator, blockLen: nat, blockSize: nat) returns (m: Option<FileMap>)
    requires a.Valid() && Ends(a.bgs, blockLen + 1)
    modifies a, a.bitmaps
    ensures a.Valid() && |a.bgs| == old(|a.bgs|)
    ensures (a.bgs, m) == AllocateExtents(old(a.bgs), blockLen, blockSize, a.bpg, a.total)
  {
    hide SoundAll, Safe, Allocate, BitsMatch, Written, Reserve;
    ghost var was := a.bgs;
    EmptyIsSafe(a.bgs);
    NewRegions(a.bgs, blockLen + 1, a.bpg, a.total, []);
    var regions := a.DoAllocate(blockLen + 1);
    if regions.None? {
      return None;
    }
    var alloc := new Allocation(regions.value);
    var n := |alloc.list|;
    if n <= 3 {
      var first := alloc.list[0];
      a.GiveBack(first, 1);
      alloc.list := if first.len > 1 then alloc.list[0 := first.(len := first.len - 1)] else [];
      var extents := WriteExtents(alloc.list);
      m := Some(FileMap(Direct(Node(n, extents)), map[], alloc.list, []));
    } else {
      ReserveOne(regions.value);
      var ok := alloc.ReserveOob(1);
      var leaf := alloc.oob[0].block;
      if blockSize - 1 < n {
        return None;
      }
      var extents := WriteExtents(alloc.list);
      m := Some(FileMap(Indexed(leaf), map[leaf := Node(n, extents)], alloc.list, alloc.oob));
    }
  }

  lemma EmptyIsSafe(bgs: seq<Group>)
    ensures Safe(bgs, [])
  {
  }

  /** get_extent_ents, for records that stay inside the list. */
  method GetExtentEnts(node: Node, blockList: array<nat>)
    requires forall e | e in node.extents :: e.block + e.len <= blockList.Length
    modifies blockList
    ensures blockList[..] == Fill(old(blockList[..]), node.Slots())
  {
    ghost var slots := node.Slots();
    for i := 0 to node.entries
      invariant Fill(blockList[..], slots[i..]) == Fill(old(blockList[..]), slots)
    {
      var e := if i < |node.extents| then node.extents[i] else NO_EXTENT;
      assert slots[i] == e && slots[i..][1..] == slots[i + 1..];
      WriteSpan(blockList, e);
    }
  }

  method WriteSpan(blockList: array<nat>, e: Extent)
    requires e.block + e.len <= blockList.Length
    modifies blockList
    ensures blockList[..] == FillOne(old(blockList[..]), e)
  {
    for j := 0 to e.len
      invariant forall k | 0 <= k < blockList.Length ::
        blockList[k] == if e.block <= k < e.block + j then e.start + (k - e.block) else old(blockList[k])
    {
      blockList[e.block + j] := e.start + j;
    }
  }

  /** get_block_list_extents for an inode made by the writer. */
  method GetBlockList(m: FileMap, blockList: array<nat>)
    requires m.root.Indexed? ==> m.root.leaf in m.leaves
    requires forall e | e in (if m.root.Direct? then m.root.node else m.leaves[m.root.leaf]).extents ::
      e.block + e.len <= blockList.Length
    modifies blockList
    ensures blockList[..] == Walk(m, old(blockList[..]))
  {
    match m.root
    case Direct(node) => GetExtentEnts(node, blockList);
    case Indexed(leaf) => GetExtentEnts(m.leaves[leaf], blockList);
  }
}
