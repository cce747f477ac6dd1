/** config_mbr, wlist_commit and find_mbr_part at work, and what the space check is worth. */
module MbrTool {
  import opened Common
  import opened Bytes
  import opened MbrModel
  import opened MbrDisk
  import opened MbrTheorems

  /** config_mbr; `starts` are the start sectors it notes in the partition list. */
  method ConfigMbr(g: Geometry, parts: seq<Part>) returns (list: Option<seq<Item>>, starts: seq<nat>)
    requires g.sect > 0 && g.skip < TWO_32
    ensures list == if Accepted(g, parts) then Some(WriteList(g, parts)) else None
    ensures list.Some? ==> |starts| == |parts| && forall i | 0 <= i < |parts| :: starts[i] == DataStart(g, parts, i)
  {
    hide KbToLba, EntryBytes, Sub32, Listed, PartItem, ExtItem, DataStart, Length, PassesCheck, Cur, Blanks;
    var items: seq<Item>, cur, ext, extended, n := [], g.skip, 0, false, |parts|;
    starts := [];
    ListedStart(g, parts);
    for i := 0 to n
      invariant items == Listed(g, parts, i) && cur == Cur(g, parts, i) && |starts| == i
      invariant extended == (n > 4 && i > 3) && (extended ==> ext == Cur(g, parts, 3))
      invariant forall k | 0 <= k < i :: PassesCheck(g, parts, k)
      invariant forall k | 0 <= k < i :: starts[k] == DataStart(g, parts, k)
    {
      ListedStep(g, parts, i);
      if i == 3 && i + 1 < n {
        extended, ext := true, cur;
        items := [Slot(3, EntryBytes(false, EXTENDED, cur, Sub32(g.num, cur)))] + items;
        ExtIs(g, parts);
      }
      var ok := CheckSpace(g, parts, i, cur, extended);
      if !ok {
        return None, [];
      }
      var item, start, len;
      if extended {
        item, start, len := MakeRecord(g, parts, i, cur, ext);
      } else {
        item, start, len := MakeEntry(g, parts, i, cur);
      }
      items, starts, cur := [item] + items, starts + [start], (start + len) % TWO_32;
    }
    var blanks := MakeBlanks(n, items);
    list := Some([EMPTY_TABLE] + blanks);
    assert [EMPTY_TABLE] + (Blanks(n, 4) + items) == WriteList(g, parts);
  }

  lemma ListedStart(g: Geometry, parts: seq<Part>)
    requires g.sect > 0
    ensures Listed(g, parts, 0) == [] && Cur(g, parts, 0) == g.skip
  {
  }

  lemma ExtIs(g: Geometry, parts: seq<Part>)
    requires g.sect > 0 && |parts| > 4
    ensures var cur := Cur(g, parts, 3);
            ExtItem(g, parts) == Slot(3, EntryBytes(false, EXTENDED, cur, Sub32(g.num, cur)))
  {
  }

  lemma CurIs(g: Geometry, parts: seq<Part>, i: nat)
    requires g.sect > 0 && i < |parts|
    ensures Cur(g, parts, i + 1) == (DataStart(g, parts, i) + Length(g, parts, i)) % TWO_32
  {
    hide Length, DataStart;
  }

  lemma Regroup(a: seq<Item>, b: seq<Item>, c: seq<Item>)
    ensures (a + b) + c == a + (b + c) && [] + c == c
  {
  }

  lemma ListedStep(g: Geometry, parts: seq<Part>, i: nat)
    requires g.sect > 0 && i < |parts|
    ensures Listed(g, parts, i + 1) == [PartItem(g, parts, i)] +
            ((if i == 3 && |parts| > 4 then [ExtItem(g, parts)] else []) + Listed(g, parts, i))
    ensures Cur(g, parts, i + 1) == (DataStart(g, parts, i) + Length(g, parts, i)) % TWO_32
    ensures [] + Listed(g, parts, i) == Listed(g, parts, i)
  {
    hide PartItem, ExtItem, Length, DataStart, Cur;
    CurIs(g, parts, i);
    Regroup([PartItem(g, parts, i)], if i == 3 && |parts| > 4 then [ExtItem(g, parts)] else [], Listed(g, parts, i));
  }

  /** mk_pri_pentry. */
  method MakeEntry(g: Geometry, parts: seq<Part>, i: nat, cur: nat) returns (item: Item, start: nat, len: nat)
    requires g.sect > 0 && i < |parts| && !Logical(i, |parts|) && cur == Cur(g, parts, i) && g.skip < TWO_32
    ensures item == PartItem(g, parts, i) && start == DataStart(g, parts, i) && len == Length(g, parts, i)
  {
    hide KbToLba, EntryBytes, EbrBytes, Sub32, Cur;
    CurBound(g, parts, i);
    start := cur;
    assert DataStart(g, parts, i) == cur;
    len := if parts[i].kb.Some? then KbToLba(parts[i].kb.value, g.sect) else Sub32(g.num, cur);
    assert Length(g, parts, i) == len;
    item := Slot(i, EntryBytes(parts[i].active, parts[i].kind, cur, len));
  }

  method CheckSpace(g: Geometry, parts: seq<Part>, i: nat, cur: nat, extended: bool) returns (ok: bool)
    requires g.sect > 0 && i < |parts| && cur == Cur(g, parts, i) && extended == Logical(i, |parts|)
    ensures ok <==> PassesCheck(g, parts, i)
  {
    hide Cur;
    var e := if extended then 1 else 0;
    assert Place(g, parts, i) == cur + e && DataStart(g, parts, i) == (cur + e) % TWO_32;
    if (cur + e) % TWO_32 >= g.num {
      return false;
    }
    match parts[i].kb
    case Some(kb) =>
      SumWraps(kb / g.sect * 1024 % TWO_32, cur + e);
      ok := (cur + kb / g.sect * 1024 % TWO_32 + e) % TWO_32 <= g.num;
    case None => ok := !extended || i + 1 == |parts|;
  }

  /** mk_ext_pentry. */
  method MakeRecord(g: Geometry, parts: seq<Part>, i: nat, cur: nat, ext: nat) returns (item: Item, start: nat, len: nat)
    requires g.sect > 0 && i < |parts| && Logical(i, |parts|) && cur == Cur(g, parts, i) && ext == Cur(g, parts, 3)
    ensures item == PartItem(g, parts, i) && start == DataStart(g, parts, i) && len == Length(g, parts, i)
  {
    hide KbToLba, EntryBytes, EbrBytes, Sub32, Cur;
    start := (cur + 1) % TWO_32;
    len := if parts[i].kb.Some? then KbToLba(parts[i].kb.value, g.sect) else Sub32(g.num, start);
    var lba := (start + len) % TWO_32;
    ListedStep(g, parts, i);
    var next := Zeros(16);
    if i + 1 < |parts| {
      var nextLen := if parts[i + 1].kb.Some? then 1 + KbToLba(parts[i + 1].kb.value, g.sect) else Sub32(g.num, lba);
      next := EntryBytes(false, EXTENDED, Sub32(lba, ext), nextLen);
    }
    item := Item(cur * g.sect, EbrBytes(EntryBytes(false, parts[i].kind, 1, len), next));
  }

  /** Blank entries in front of the list. */
  method MakeBlanks(n: nat, items: seq<Item>) returns (all: seq<Item>)
    ensures all == Blanks(n, 4) + items
  {
    hide EntryBytes;
    all := items;
    var cnt := n;
    assert Blanks(n, n) == [];
    while cnt < 4
      invariant n <= cnt && (cnt <= 4 || cnt == n) && all == Blanks(n, cnt) + items
    {
      all := [Slot(cnt, EntryBytes(false, 0, 0, 0))] + all;
      cnt := cnt + 1;
    }
    assert n >= 4 ==> Blanks(n, 4) == Blanks(n, n) == [];
  }

  /** wlist_commit, for writes that stay on the disk. */
  method WlistCommit(disk: array<byte>, list: seq<Item>)
    requires forall i | 0 <= i < |list| :: Inside(list[i], disk.Length)
    modifies disk
    ensures disk[..] == Commit(old(disk[..]), list)
  {
    for i := 0 to |list|
      invariant Commit(disk[..], list[i..]) == Commit(old(disk[..]), list)
    {
      assert list[i..][0] == list[i] && list[i..][1..] == list[i + 1..];
      WriteItem(disk, list[i]);
    }
  }

  method WriteItem(disk: array<byte>, x: Item)
    requires Inside(x, disk.Length)
    modifies disk
    ensures disk[..] == Applied(old(disk[..]), x)
  {
    for i := 0 to |x.data|
      invariant forall k | 0 <= k < disk.Length ::
        disk[k] == if x.offset <= k < x.offset + i then x.data[k - x.offset] else old(disk[k])
    {
      disk[x.offset + i] := x.data[i];
    }
  }

  /** find_mbr_part: the number of the first partition of that name. */
  method FindMbrPart(names: seq<string>, name: string) returns (r: Option<nat>)
    ensures r.None? <==> name !in names
    ensures r.Some? ==> exists i :: 0 <= i < |names| && names[i] == name && name !in names[..i] && r.value == Number(i, |names|)
  {
    var num := 1;
    while num <= |names| && names[num - 1] != name
      invariant 1 <= num <= |names| + 1 && name !in names[..num - 1]
    {
      num := num + 1;
    }
    if num > |names| {
      assert names[..|names|] == names;
      return None;
    }
    assert names[num - 1] == name;
    r := Some(if |names| > 4 && num >= 4 then num + 1 else num);
  }

  /** The reader gives every partition the number that find_mbr_part gives it. */
  lemma {:induction false} NumbersAgree(g: Geometry, parts: seq<Part>, from: nat, i: nat)
    requires g.sect > 0 && from <= i < |parts|
    ensures |ExpectedFrom(g, parts, from)| == |parts| - from
    ensures ExpectedFrom(g, parts, from)[i - from] == Expected(g, parts, i)
    ensures ExpectedFrom(g, parts, from)[i - from].number == Number(i, |parts|)
    decreases i - from
  {
    hide Expected;
    if from < i {
      NumbersAgree(g, parts, from + 1, i);
    } else {
      ExpectedLength(g, parts, i);
    }
    assert Expected(g, parts, i).number == Number(i, |parts|) by {
      ExpectedNumber(g, parts, i);
    }
  }

  lemma ExpectedNumber(g: Geometry, parts: seq<Part>, i: nat)
    requires g.sect > 0 && i < |parts|
    ensures Expected(g, parts, i).number == Number(i, |parts|)
  {
  }

  lemma {:induction false} ExpectedLength(g: Geometry, parts: seq<Part>, i: nat)
    requires g.sect > 0 && i <= |parts|
    ensures |ExpectedFrom(g, parts, i)| == |parts| - i
    decreases |parts| - i
  {
    if i < |parts| {
      ExpectedLength(g, parts, i + 1);
    }
  }

  /** A bootable partition of 100 KB and one that fills the rest of a disk of 1000 sectors. */
  lemma LastFillsTheDisk(parts: seq<Part>)
    requires parts == [Part(true, 0x0c, Some(100)), Part(false, 0x83, None)]
    ensures var g := Geometry(512, 1, 1000);
            Usable(g) && Fits(g, parts) && ExpectedFrom(g, parts, 0) ==
                                          [Found(1, 1, 200, 0x0c, true), Found(2, 201, 799, 0x83, false)]
  {
    var g := Geometry(512, 1, 1000);
    assert KbToLba(100, 512) == 200 && DivRoundUp(102400, 512) == 200;
    assert Cur(g, parts, 0) == 1 && DataStart(g, parts, 0) == 1 && Length(g, parts, 0) == 200;
    assert Cur(g, parts, 1) == 201 && DataStart(g, parts, 1) == 201 && Length(g, parts, 1) == 799;
    assert PartFits(g, parts, 0) && PartFits(g, parts, 1);
    assert ExpectedFrom(g, parts, 1) == [Expected(g, parts, 1)] + ExpectedFrom(g, parts, 2);
  }

  // ----- The space check

  lemma MaskedIsRounded(y: nat, sect: nat)
    requires sect > 0
    ensures AlignDown(y, sect) / sect == y / sect
  {
    DivModUnique(y / sect, 0, sect);
    assert AlignDown(y, sect) == y / sect * sect + 0;
  }

  lemma RoundedSize(kb: nat, sect: nat)
    requires sect > 0
    ensures KbToLba(kb, sect) == DivRoundUp(kb * 1024, sect) % TWO_32
    ensures kb / sect * 1024 <= DivRoundUp(kb * 1024, sect)
    ensures kb % sect == 0 ==> kb / sect * 1024 == DivRoundUp(kb * 1024, sect)
  {
    MaskedIsRounded(kb * 1024 + sect - 1, sect);
    hide *;
    assert kb == kb / sect * sect + kb % sect;
    SizeInSectors(kb / sect, kb % sect, sect);
  }

  lemma SizeInSectors(q: nat, r: nat, sect: nat)
    requires r < sect
    ensures var kb := q * sect + r;
            q * 1024 <= DivRoundUp(kb * 1024, sect) && (r == 0 ==> q * 1024 == DivRoundUp(kb * 1024, sect))
  {
    var x := (q * sect + r) * 1024 + sect - 1;
    assert x == (q * 1024) * sect + (r * 1024 + sect - 1);
    DivModUnique(q * 1024, sect - 1, sect);
    DivMonotone((q * 1024) * sect + (sect - 1), x, sect);
  }

  /** What fits is accepted. */
  lemma FittingIsAccepted(g: Geometry, parts: seq<Part>)
    requires Usable(g) && Fits(g, parts)
    ensures Accepted(g, parts)
  {
    hide PassesCheck, Fits;
    forall i | 0 <= i < |parts| ensures PassesCheck(g, parts, i) {
      FittingPasses(g, parts, i);
    }
  }

  lemma FittingPasses(g: Geometry, parts: seq<Part>, i: nat)
    requires Usable(g) && Fits(g, parts) && i < |parts|
    ensures PassesCheck(g, parts, i)
  {
    hide Cur, DataStart, Length, DivRoundUp, Fits;
    assert PartFits(g, parts, i) by {
      FitsAt(g, parts, i);
    }
    PartitionsApart(g, parts, i, i + 1);
    SmallMod(DataStart(g, parts, i));
    if parts[i].kb.Some? {
      CountedIsLess(g, parts, i);
      CheckSum(DataStart(g, parts, i), parts[i].kb.value / g.sect * 1024, Length(g, parts, i), g.num);
    }
  }

  lemma CountedIsLess(g: Geometry, parts: seq<Part>, i: nat)
    requires g.sect > 0 && i < |parts| && parts[i].kb.Some?
    requires DivRoundUp(parts[i].kb.value * 1024, g.sect) < TWO_32
    ensures parts[i].kb.value / g.sect * 1024 <= Length(g, parts, i)
  {
    hide DivRoundUp, KbToLba;
    RoundedSize(parts[i].kb.value, g.sect);
    SmallMod(DivRoundUp(parts[i].kb.value * 1024, g.sect));
  }

  lemma CheckSum(start: nat, counted: nat, len: nat, num: nat)
    requires counted <= len && start + len <= num < TWO_32
    ensures (start + counted % TWO_32) % TWO_32 <= num
  {
  }

  lemma FitsAt(g: Geometry, parts: seq<Part>, i: nat)
    requires g.sect > 0 && Fits(g, parts) && i < |parts|
    ensures PartFits(g, parts, i)
  {
  }

  /** The check counts whole multiples of the sector size in KB only: 200 KB on a disk of 100 sectors
      pass. */
  lemma OverflowAccepted()
    ensures var g, parts := Geometry(512, 1, 100), [Part(false, 0x83, Some(200))];
            Usable(g) && Accepted(g, parts) && DataStart(g, parts, 0) + Length(g, parts, 0) == 401 > g.num
  {
    var g, parts := Geometry(512, 1, 100), [Part(false, 0x83, Some(200))];
    assert KbToLba(200, 512) == 400;
  }

  lemma ExactSum(start: nat, counted: nat)
    requires start + counted < TWO_32
    ensures start % TWO_32 == start && counted % TWO_32 == counted
    ensures (start + counted % TWO_32) % TWO_32 == start + counted
  {
  }

  /** Which partitions the check wrongly lets through, for every size: those that end behind the disk
      although their start and the sectors counted, both wrapped to 32 bits, stay on it. */
  lemma WronglyAcceptedIff(g: Geometry, parts: seq<Part>, i: nat)
    requires Usable(g) && i < |parts| && parts[i].kb.Some?
    ensures var start, counted := DataStart(g, parts, i), parts[i].kb.value / g.sect * 1024;
            var end := Place(g, parts, i) + DivRoundUp(parts[i].kb.value * 1024, g.sect);
            PassesCheck(g, parts, i) && g.num < end <==>
            start < g.num < end && (start + counted) % TWO_32 <= g.num
  {
    hide Cur, DivRoundUp, KbToLba, DataStart, Place;
    SumWraps(DataStart(g, parts, i), parts[i].kb.value / g.sect * 1024);
  }

  /** A boot record in the last sector that 32 bits can count: the logical partition behind it is noted at
      sector 0, and at no other place. */
  lemma StartWrapsIff(g: Geometry, parts: seq<Part>, i: nat)
    requires Usable(g) && i < |parts|
    ensures DataStart(g, parts, i) == Place(g, parts, i) <==> !(Logical(i, |parts|) && Cur(g, parts, i) == TWO_32 - 1)
    ensures DataStart(g, parts, i) == 0 || DataStart(g, parts, i) == Place(g, parts, i)
  {
    hide Cur;
    CurBound(g, parts, i);
    assert DataStart(g, parts, i) == Place(g, parts, i) % TWO_32;
  }

  lemma CurBound(g: Geometry, parts: seq<Part>, i: nat)
    requires g.sect > 0 && g.skip < TWO_32 && i <= |parts|
    ensures Cur(g, parts, i) < TWO_32
  {
    hide DataStart, Length;
  }

  lemma WrapSizes()
    ensures KbToLba(0x7fff_fffe, 512) == 0xffff_fffc && KbToLba(0, 512) == 0 && KbToLba(1, 512) == 2
  {
  }

  /** Such a disk: the fourth partition passes the check and is noted at sector 0. */
  lemma StartWrapsExample(parts: seq<Part>)
    requires |parts| == 5 && parts[0].kb == Some(0x7fff_fffe) && parts[2].kb == Some(1)
    requires parts[1].kb == parts[3].kb == parts[4].kb == Some(0)
    ensures var g := Geometry(512, 1, 0xffff_ffff);
            && Usable(g) && (forall k | 0 <= k <= 3 :: PassesCheck(g, parts, k))
            && Cur(g, parts, 3) == TWO_32 - 1 && DataStart(g, parts, 3) == 0
  {
    var g := Geometry(512, 1, 0xffff_ffff);
    WrapSizes();
    hide KbToLba, Cur, DataStart;
    ListedStart(g, parts);
    CurIs(g, parts, 0);
    CurIs(g, parts, 1);
    CurIs(g, parts, 2);
    StartWrapsIff(g, parts, 0);
    StartWrapsIff(g, parts, 1);
    StartWrapsIff(g, parts, 2);
    StartWrapsIff(g, parts, 3);
    assert Cur(g, parts, 1) == Cur(g, parts, 2) == 0xffff_fffd;
    assert Cur(g, parts, 3) == 0xffff_ffff;
  }

  lemma SumWraps(start: nat, counted: nat)
    ensures (start + counted % TWO_32) % TWO_32 == (start + counted) % TWO_32
  {
  }

  lemma StartOf(g: Geometry, parts: seq<Part>, i: nat)
    requires g.sect > 0 && i < |parts| && Place(g, parts, i) < TWO_32
    ensures DataStart(g, parts, i) == Place(g, parts, i)
  {
    hide Cur, Place;
    SmallMod(Place(g, parts, i));
  }

  lemma CheckMeans(g: Geometry, parts: seq<Part>, i: nat)
    requires g.sect > 0 && i < |parts| && parts[i].kb.Some?
    ensures var start, counted := DataStart(g, parts, i), parts[i].kb.value / g.sect * 1024;
            PassesCheck(g, parts, i) <==> start < g.num && (start + counted % TWO_32) % TWO_32 <= g.num
    ensures Length(g, parts, i) == KbToLba(parts[i].kb.value, g.sect)
  {
    hide Cur, DataStart, KbToLba;
  }

  lemma CheckedAt(start: nat, counted: nat, size: nat)
    requires counted <= size && start + size < TWO_32
    ensures (start + counted % TWO_32) % TWO_32 == start + counted && size % TWO_32 == size
  {
    ExactSum(start, counted);
    SmallMod(size);
  }

  /** The sectors the check counts: whole multiples of the sector size only. */
  function Counted(kb: nat, sect: nat): nat
    requires sect > 0
  {
    kb / sect * 1024
  }

  /** Sizes that 32 bits can count: the check is wrong if and only if the end lies behind the disk and the
      whole multiples of the sector size do not. */
  lemma CheckIsExact(g: Geometry, parts: seq<Part>, i: nat)
    requires Usable(g) && i < |parts| && parts[i].kb.Some?
    requires Place(g, parts, i) + DivRoundUp(parts[i].kb.value * 1024, g.sect) < TWO_32
    ensures DataStart(g, parts, i) == Place(g, parts, i)
    ensures var start, counted, end := DataStart(g, parts, i), Counted(parts[i].kb.value, g.sect),
                                       DataStart(g, parts, i) + Length(g, parts, i);
            && (PassesCheck(g, parts, i) && g.num < end <==> start < g.num && start + counted <= g.num < end)
            && (start < g.num && end <= g.num ==> PassesCheck(g, parts, i))
  {
    hide DivRoundUp, Counted, KbToLba, Place, DataStart, Length, PassesCheck;
    StartOf(g, parts, i);
    CheckOnNumbers(g, parts, i, DivRoundUp(parts[i].kb.value * 1024, g.sect));
  }

  lemma CheckOnNumbers(g: Geometry, parts: seq<Part>, i: nat, size: nat)
    requires g.sect > 0 && i < |parts| && parts[i].kb.Some? && size == DivRoundUp(parts[i].kb.value * 1024, g.sect)
    requires DataStart(g, parts, i) + size < TWO_32
    ensures Counted(parts[i].kb.value, g.sect) <= size
    ensures PassesCheck(g, parts, i) <==>
            && DataStart(g, parts, i) < g.num
            && DataStart(g, parts, i) + Counted(parts[i].kb.value, g.sect) <= g.num
    ensures Length(g, parts, i) == size
  {
    hide DivRoundUp, KbToLba, DataStart, Length, PassesCheck;
    RoundedSize(parts[i].kb.value, g.sect);
    CheckMeans(g, parts, i);
    CheckedAt(DataStart(g, parts, i), Counted(parts[i].kb.value, g.sect), size);
  }

  // ----- Together

  lemma ListInside(g: Geometry, parts: seq<Part>, size: nat)
    requires Usable(g) && Fits(g, parts) && size == g.num * g.sect
    ensures forall i | 0 <= i < |WriteList(g, parts)| :: Inside(WriteList(g, parts)[i], size)
  {
    hide Items, Fits, AllApart;
    var list, items := WriteList(g, parts), Items(g, parts, 4);
    ItemsApart(g, parts, 4);
    MulMonotone(1, g.num, g.sect);
    assert list == [EMPTY_TABLE] + items by {
      ListIs(g, parts);
    }
    forall i | 0 <= i < |list| ensures Inside(list[i], size) {
      if i > 0 {
        assert Below(items[i - 1], g.sect, 4, g.num);
      }
    }
  }

  lemma ListIs(g: Geometry, parts: seq<Part>)
    requires g.sect > 0
    ensures WriteList(g, parts) == [EMPTY_TABLE] + Items(g, parts, 4)
  {
  }

  /** Configuring and committing: the disk then holds the partitions, whatever was on it before. */
  method ApplyDiskConfig(disk: array<byte>, g: Geometry, parts: seq<Part>)
    requires Usable(g) && Fits(g, parts) && disk.Length == g.num * g.sect
    modifies disk
    ensures disk[..] == After(old(disk[..]), g, parts)
    ensures Walk(disk[..], g.sect, |parts|) == ExpectedFrom(g, parts, 0)
  {
    hide Fits, WriteList, Walk, ExpectedFrom, Commit, Accepted;
    FittingIsAccepted(g, parts);
    ListInside(g, parts, disk.Length);
    WalkFindsPartitions(disk[..], g, parts, |parts|);
    var list, _ := ConfigMbr(g, parts);
    WlistCommit(disk, list.value);
  }
}
