/** A filesystem on which the first file, the journal, loses its last block. */
module ExtentExample {
  import opened Common
  import opened AllocModel
  import opened FsGeometry
  import opened Allocator
  import opened ExtentModel
  import opened ExtentTheorems

  /** 87 blocks in groups of 29, with 48 inodes. */
  function ThinDevice(): Info { MakeInfo(4096, 87, 29, 48, 256) }

  const FIRST := Group(0, 28, 29, 1, 28, 0)
  const SECOND := Group(29, 28, 29, 1, 28, 0)
  const THIRD := Group(58, 3, 29, 26, 3, 0)

  lemma NoSuperInThird()
    ensures !HasSuper(true, 2)
  {
    forall b: nat, k: nat | b > 2 && k > 0 ensures Power(b, k) != 2 {
      PowerGrows(b, k);
    }
  }

  /** Two groups keep a single block each behind their headers, the third one 26. */
  lemma ThinHeaders()
    ensures var info := ThinDevice();
            && info.Valid() && info.bpg == 29 && info.Groups() == 3 && info.Total() == 87
            && info.Header(0) == info.Header(1) == 28 && info.Header(2) == 3 && info.HeadersFit()
  {
    NoSuperInThird();
    var info := ThinDevice();
    assert info == Info(4096, 87, 29, 16, 256, 23, true);
    assert info.TableBlocks() == 1 && info.DescBlocks() == 1 && info.AllGroups() == 3;
  }

  lemma ThinGroups(bgs: seq<Group>)
    requires ThinDevice().Valid() && ThinDevice().HeadersFit() && NewGroups(bgs, ThinDevice())
    ensures bgs == [FIRST, SECOND, THIRD] && SoundAll(bgs, 29, 87)
  {
    hide ThinDevice, SoundAll, Info.Header, Info.Total, Info.Groups, Info.HeadersFit;
    ThinHeaders();
    NewGroupsAreSound(bgs, ThinDevice());
    var info := ThinDevice();
    assert IsNewGroup(bgs[0], info, 0) && IsNewGroup(bgs[1], info, 1) && IsNewGroup(bgs[2], info, 2);
  }

  /** The first group gives its only block, then the second, then the third. */
  lemma FirstPart(bgs: seq<Group>)
    requires bgs == [FIRST, SECOND, THIRD]
    ensures Contiguous(bgs, 28) == None
    ensures Partial(bgs, 28) == Some(Gift([Taken(FIRST, 1), SECOND, THIRD], Region(28, 1, 0)))
  {
    assert FirstFit(bgs, 28, 0) == FirstFit(bgs, 28, 1) == FirstFit(bgs, 28, 2) == FirstFit(bgs, 28, 3) == 3;
    assert FirstUnused(bgs, 0) == 0 && bgs[0 := Taken(FIRST, 1)] == [Taken(FIRST, 1), SECOND, THIRD];
  }

  lemma SecondPart(bgs: seq<Group>)
    requires bgs == [Taken(FIRST, 1), SECOND, THIRD]
    ensures Partial(bgs, 27) == Some(Gift([Taken(FIRST, 1), Taken(SECOND, 1), THIRD], Region(57, 1, 1)))
  {
    assert FirstUnused(bgs, 0) == FirstUnused(bgs, 1) == 1;
    assert bgs[1 := Taken(SECOND, 1)] == [Taken(FIRST, 1), Taken(SECOND, 1), THIRD];
  }

  lemma ThirdPart(bgs: seq<Group>)
    requires bgs == [Taken(FIRST, 1), Taken(SECOND, 1), THIRD]
    ensures Partial(bgs, 26) == Some(Gift([Taken(FIRST, 1), Taken(SECOND, 1), Taken(THIRD, 26)], Region(61, 26, 2)))
  {
    assert FirstUnused(bgs, 0) == FirstUnused(bgs, 1) == FirstUnused(bgs, 2) == 2;
    assert FirstFit(bgs, 26, 0) == FirstFit(bgs, 26, 1) == FirstFit(bgs, 26, 2) == 2;
    assert bgs[2 := Taken(THIRD, 26)] == [Taken(FIRST, 1), Taken(SECOND, 1), Taken(THIRD, 26)];
  }

  lemma NothingStuck(bgs: seq<Group>)
    requires bgs == [FIRST, SECOND, THIRD]
    ensures Ends(bgs, 28) && !Roomy(bgs, 28)
  {
  }

  lemma ThinRegions(bgs: seq<Group>)
    requires bgs == [FIRST, SECOND, THIRD] && SoundAll(bgs, 29, 87) && Ends(bgs, 28)
    ensures Allocate(bgs, 28, 29, 87).1 == Some([Region(28, 1, 0), Region(57, 1, 1), Region(61, 26, 2)])
  {
    hide Partial, Contiguous, SoundAll, Multiple, Stuck;
    FirstPart(bgs);
    var one := [Taken(FIRST, 1), SECOND, THIRD];
    var two := [Taken(FIRST, 1), Taken(SECOND, 1), THIRD];
    var three := [Taken(FIRST, 1), Taken(SECOND, 1), Taken(THIRD, 26)];
    PartialKeepsSound(bgs, 28, 29, 87);
    SecondPart(one);
    PartialKeepsSound(one, 27, 29, 87);
    ThirdPart(two);
    PartialKeepsSound(two, 26, 29, 87);
    var c: seq<Region> := [Region(61, 26, 2)];
    assert Multiple(three, 0, 29, 87).1 == Some([]) by { MultipleOfNone(three, 29, 87); }
    OneMore(two, 26, 29, 87, []);
    assert c + [] == c;
    OneMore(one, 27, 29, 87, c);
    OneMore(bgs, 28, 29, 87, [Region(57, 1, 1)] + c);
    assert [Region(28, 1, 0)] + ([Region(57, 1, 1)] + c) == [Region(28, 1, 0), Region(57, 1, 1), Region(61, 26, 2)];
  }

  lemma MultipleOfNone(bgs: seq<Group>, bpg: nat, total: nat)
    requires SoundAll(bgs, bpg, total) && !Stuck(bgs, 0)
    ensures Multiple(bgs, 0, bpg, total).1 == Some([])
  {
  }

  /** One turn of the loop, and the regions of the others. */
  lemma OneMore(bgs: seq<Group>, n: nat, bpg: nat, total: nat, rest: seq<Region>)
    requires SoundAll(bgs, bpg, total) && !Stuck(bgs, n) && n > 0 && Partial(bgs, n).Some?
    requires var p := Partial(bgs, n).value;
             && p.region.len <= n && SoundAll(p.bgs, bpg, total) && !Stuck(p.bgs, n - p.region.len)
             && Multiple(p.bgs, n - p.region.len, bpg, total).1 == Some(rest)
    ensures Multiple(bgs, n, bpg, total).1 == Some([Partial(bgs, n).value.region] + rest)
  {
    hide Partial, SoundAll, Stuck;
  }

  /** A journal of 27 blocks on that device: its last block is not mapped. */
  lemma ThinGroupExample(bgs: seq<Group>)
    requires ThinDevice().Valid() && ThinDevice().HeadersFit() && NewGroups(bgs, ThinDevice())
    ensures SoundAll(bgs, 29, 87) && Ends(bgs, 28)
    ensures var m := AllocateExtents(bgs, 27, 4096, 29, 87).1; m.Some? && LosesLast(m.value, 27)
    ensures AllocateExtents(bgs, 27, 4096, 29, 87).1 == Some(FileMap(Direct(Node(3, [])), map[], [], []))
  {
    hide NewGroups, SoundAll, Ends, Allocate, LosesLast, Roomy;
    ThinGroups(bgs);
    NothingStuck(bgs);
    ThinRegions(bgs);
    ExtentsRoundTrip(bgs, 27, 4096, 29, 87, []);
  }

  // ----- Files of one region and of four

  /** Five blocks from a group with room: one record in the inode. */
  lemma OneRegionExample(g: Group)
    requires g == Group(0, 10, 100, 90, 10, 0)
    ensures SoundAll([g], 100, 100) && Ends([g], 6)
    ensures AllocateExtents([g], 5, 4096, 100, 100) ==
            ([g.(free := 85, firstFree := 15, used := 6)],
             Some(FileMap(Direct(Node(1, [Extent(0, 5, 10)])), map[], [Region(10, 5, 0)], [])))
  {
    var bgs := [g];
    var now, rest := Taken(g, 6), g.(free := 85, firstFree := 15, used := 6);
    assert FirstFit(bgs, 6, 0) == 0 && bgs[0 := now] == [now] && [now][0 := rest] == [rest];
    assert [Region(10, 6, 0)][0 := Region(10, 5, 0)] == [Region(10, 5, 0)];
    assert Contiguous(bgs, 6) == Some(Gift([Taken(g, 6)], Region(10, 6, 0)));
    assert Allocate(bgs, 6, 100, 100) == ([Taken(g, 6)], Some([Region(10, 6, 0)]));
    assert Written([Region(10, 5, 0)], 0) == [Extent(0, 5, 10)];
    assert Reduced([now], [Region(10, 6, 0)]) == ([rest], [Region(10, 5, 0)]);
  }

  /** Group `i` of four groups of ten blocks with three free ones each. */
  function Small(i: nat): Group { Group(10 * i, 7, 10, 3, 7, 0) }

  /** The first `used` of them have given everything. */
  function FourGroups(used: nat): seq<Group> {
    seq(4, i requires 0 <= i < 4 => if i < used then Taken(Small(i), 3) else Small(i))
  }

  lemma FourSound(k: nat)
    ensures SoundAll(FourGroups(k), 10, 40)
  {
  }

  lemma FourEnds(bgs: seq<Group>)
    requires bgs == FourGroups(0)
    ensures Ends(bgs, 12)
  {
  }

  lemma NextOfFour(k: nat, n: nat)
    requires k < 4 && n == 12 - 3 * k
    ensures Partial(FourGroups(k), n) == Some(Gift(FourGroups(k + 1), Region(10 * k + 7, 3, k)))
    ensures SoundAll(FourGroups(k), 10, 40) && SoundAll(FourGroups(k + 1), 10, 40)
  {
    hide Partial, SoundAll, NextRegion;
    FourSound(k);
    FourSound(k + 1);
    var bgs := FourGroups(k);
    NextIs(bgs, k);
    FirstOf(bgs, k, n);
  }

  lemma NextIs(bgs: seq<Group>, k: nat)
    requires k < 4 && bgs == FourGroups(k)
    ensures bgs[k := Taken(bgs[k], 3)] == FourGroups(k + 1) && NextRegion(bgs, k, 3) == Region(10 * k + 7, 3, k)
  {
  }

  lemma NoneFits(bgs: seq<Group>)
    requires bgs == FourGroups(0)
    ensures Contiguous(bgs, 12) == None && (Ends(bgs, 12) ==> !Stuck(bgs, 12))
  {
    hide FirstFit, Stuck;
  }

  /** The first unused group gives its three blocks. */
  lemma FirstOf(bgs: seq<Group>, k: nat, n: nat)
    requires k < |bgs| && bgs[k].used == 0 && bgs[k].free == 3 <= n
    requires forall j | 0 <= j < k :: bgs[j].used > 0 && bgs[j].free < 3
    ensures Partial(bgs, n) == Some(Gift(bgs[k := Taken(bgs[k], 3)], NextRegion(bgs, k, 3)))
  {
    hide Taken, NextRegion;
    assert FirstUnused(bgs, 0) == k;
    if n == 3 {
      assert FirstFit(bgs, n, 0) == k;
    }
  }

  /** Eleven blocks from these groups: four regions are too many for the inode, and the spare block, the
      first one, becomes the leaf. */
  lemma FourRegionsExample(bgs: seq<Group>)
    requires bgs == FourGroups(0)
    ensures SoundAll(bgs, 10, 40) && Ends(bgs, 12)
    ensures AllocateExtents(bgs, 11, 4096, 10, 40).1 ==
            Some(FileMap(Indexed(7),
                         map[7 := Node(4, [Extent(0, 2, 8), Extent(2, 3, 17), Extent(5, 3, 27), Extent(8, 3, 37)])],
                         [Region(8, 2, 0), Region(17, 3, 1), Region(27, 3, 2), Region(37, 3, 3)], [Region(7, 1, 0)]))
  {
    hide Allocate, SoundAll, Ends, Reserve, Written, AllocateExtents, FourGroups;
    FourSound(0);
    FourEnds(bgs);
    FourRegions(bgs);
    var regions := [Region(7, 3, 0), Region(17, 3, 1), Region(27, 3, 2), Region(37, 3, 3)];
    var list := [Region(8, 2, 0), Region(17, 3, 1), Region(27, 3, 2), Region(37, 3, 3)];
    ReserveOne(regions);
    assert regions[0 := Region(8, 2, 0)] == list;
    FourRecords(list);
    LeafOf(bgs, 11, 10, 40, regions, Parted(list, [Region(7, 1, 0)]));
  }

  /** The leaf of a file of more than three regions. */
  lemma LeafOf(bgs: seq<Group>, blockLen: nat, bpg: nat, total: nat, regions: seq<Region>, p: Parted)
    requires SoundAll(bgs, bpg, total) && Ends(bgs, blockLen + 1) && 3 < |regions| < 4095
    requires Allocate(bgs, blockLen + 1, bpg, total).1 == Some(regions) && Reserve(regions, 1) == Some(p) && p.oob != []
    ensures var leaf := p.oob[0].block;
            AllocateExtents(bgs, blockLen, 4096, bpg, total).1 ==
            Some(FileMap(Indexed(leaf), map[leaf := Node(|regions|, Written(p.list, 0))], p.list, p.oob))
  {
    hide Allocate, SoundAll, Ends, Reserve, Written;
  }

  lemma FourRecords(list: seq<Region>)
    requires list == [Region(8, 2, 0), Region(17, 3, 1), Region(27, 3, 2), Region(37, 3, 3)]
    ensures Written(list, 0) == [Extent(0, 2, 8), Extent(2, 3, 17), Extent(5, 3, 27), Extent(8, 3, 37)]
  {
    var b, c, d := list[1..], list[2..], list[3..];
    assert b[1..] == c && c[1..] == d && d[1..] == [];
    assert Written(d, 8) == [Extent(8, 3, 37)] + Written([], 11);
    assert Written(c, 5) == [Extent(5, 3, 27)] + Written(d, 8);
    assert Written(b, 2) == [Extent(2, 3, 17)] + Written(c, 5);
  }

  lemma FourRegions(bgs: seq<Group>)
    requires bgs == FourGroups(0) && SoundAll(bgs, 10, 40) && Ends(bgs, 12)
    ensures Allocate(bgs, 12, 10, 40).1 == Some([Region(7, 3, 0), Region(17, 3, 1), Region(27, 3, 2), Region(37, 3, 3)])
  {
    hide Partial, Contiguous, SoundAll, Multiple, Stuck, FourGroups;
    NoneFits(bgs);
    NextOfFour(0, 12);
    PartialKeepsSound(FourGroups(0), 12, 10, 40);
    NextOfFour(1, 9);
    PartialKeepsSound(FourGroups(1), 9, 10, 40);
    NextOfFour(2, 6);
    PartialKeepsSound(FourGroups(2), 6, 10, 40);
    NextOfFour(3, 3);
    PartialKeepsSound(FourGroups(3), 3, 10, 40);
    MultipleOfNone(FourGroups(4), 10, 40);
    var d := [Region(37, 3, 3)];
    var c := [Region(27, 3, 2)] + d;
    OneMore(FourGroups(3), 3, 10, 40, []);
    assert d + [] == d;
    OneMore(FourGroups(2), 6, 10, 40, d);
    OneMore(FourGroups(1), 9, 10, 40, c);
    OneMore(FourGroups(0), 12, 10, 40, [Region(17, 3, 1)] + c);
    assert [Region(7, 3, 0)] + ([Region(17, 3, 1)] + c) ==
           [Region(7, 3, 0), Region(17, 3, 1), Region(27, 3, 2), Region(37, 3, 3)];
  }
}
