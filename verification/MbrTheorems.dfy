/** What config_mbr puts on a disk is what a reader of partition tables finds there. */
module MbrTheorems {
  import opened Common
  import opened Bytes
  import opened MbrModel
  import opened MbrDisk

  // ----- Partitions lie in order

  /** Nothing wraps around. */
  lemma CurNext(g: Geometry, parts: seq<Part>, i: nat)
    requires Usable(g) && Fits(g, parts) && i < |parts|
    ensures Cur(g, parts, i + 1) == DataStart(g, parts, i) + Length(g, parts, i) <= g.num
    ensures DataStart(g, parts, i) == Place(g, parts, i) >= Cur(g, parts, i) && Length(g, parts, i) > 0
    ensures Logical(i, |parts|) ==> DataStart(g, parts, i) == Cur(g, parts, i) + 1
  {
    hide Length, DivRoundUp;
    assert PartFits(g, parts, i);
    SmallMod(Place(g, parts, i));
    SmallMod(DataStart(g, parts, i) + Length(g, parts, i));
  }

  lemma SmallMod(x: nat)
    requires x < TWO_32
    ensures x % TWO_32 == x
  {
  }

  lemma SubExact(a: nat, b: nat)
    requires b <= a < TWO_32
    ensures Sub32(a, b) == a - b
  {
  }

  lemma {:induction false} CurGrows(g: Geometry, parts: seq<Part>, i: nat, j: nat)
    requires Usable(g) && Fits(g, parts) && i <= j <= |parts|
    ensures Cur(g, parts, i) + (j - i) <= Cur(g, parts, j) <= g.num
    decreases j - i
  {
    hide Length, Cur, Fits, DataStart;
    if i < j {
      CurGrows(g, parts, i, j - 1);
      CurNext(g, parts, j - 1);
    } else {
      CurOnDisk(g, parts, i);
    }
  }

  lemma CurOnDisk(g: Geometry, parts: seq<Part>, i: nat)
    requires Usable(g) && Fits(g, parts) && i <= |parts|
    ensures Cur(g, parts, i) <= g.num
  {
    if i > 0 {
      CurNext(g, parts, i - 1);
    }
  }

  /** Partition `i` has its sectors to itself: it starts behind the partition before it and behind its own
      boot record, and ends before the next boot record or partition, and on the disk. */
  lemma PartitionsApart(g: Geometry, parts: seq<Part>, i: nat, j: nat)
    requires Usable(g) && Fits(g, parts) && i < j <= |parts|
    ensures 1 <= Cur(g, parts, i) <= DataStart(g, parts, i) < DataStart(g, parts, i) + Length(g, parts, i)
    ensures DataStart(g, parts, i) + Length(g, parts, i) <= Cur(g, parts, j) <= g.num
    ensures Logical(i, |parts|) ==> Cur(g, parts, i) < DataStart(g, parts, i)
  {
    assert Cur(g, parts, 0) == g.skip;
    hide Length, KbToLba, Fits, PartFits, Cur, DataStart;
    CurGrows(g, parts, 0, i);
    CurNext(g, parts, i);
    CurGrows(g, parts, i + 1, j);
  }

  lemma SectorsApart(a: nat, b: nat, sect: nat)
    requires a < b
    ensures a * sect + sect <= b * sect
  {
    MulMonotone(a + 1, b, sect);
    assert (a + 1) * sect == a * sect + sect;
  }

  // ----- The items of the list

  /** A table entry below slot `slots`, or a boot record below sector `top`. */
  predicate Below(x: Item, sect: nat, slots: nat, top: nat) {
    || (446 <= x.offset && x.offset + 16 <= 446 + 16 * slots && |x.data| == 16)
    || (sect <= x.offset && x.offset + sect <= top * sect && |x.data| == 512)
  }

  ghost predicate AllBelow(list: seq<Item>, sect: nat, slots: nat, top: nat) {
    forall i | 0 <= i < |list| :: Below(list[i], sect, slots, top)
  }

  function Slots(n: nat, i: nat): nat { if n > 4 && i > 3 then 4 else i }

  lemma Prepend(x: Item, list: seq<Item>)
    requires AllApart(list) && forall i | 0 <= i < |list| :: Apart(x, list[i])
    ensures AllApart([x] + list)
  {
    var all := [x] + list;
    forall i, j | 0 <= i < j < |all| ensures Apart(all[i], all[j]) {
      assert all[j] == list[j - 1];
      if i > 0 {
        assert Apart(list[i - 1], list[j - 1]);
      }
    }
  }

  /** A new table entry keeps everything apart. */
  lemma AddSlot(list: seq<Item>, sect: nat, slots: nat, top: nat, entry: seq<byte>)
    requires sect >= 512 && slots < 4 && |entry| == 16 && AllApart(list) && AllBelow(list, sect, slots, top)
    ensures var all := [Slot(slots, entry)] + list; AllApart(all) && AllBelow(all, sect, slots + 1, top)
  {
    var x := Slot(slots, entry);
    forall i | 0 <= i < |list| ensures Apart(x, list[i]) {
      assert Below(list[i], sect, slots, top);
    }
    Prepend(x, list);
  }

  /** So does a boot record at the sector counter. */
  lemma AddRecord(list: seq<Item>, sect: nat, slots: nat, at: nat, top: nat, data: seq<byte>)
    requires sect >= 512 && slots <= 4 && |data| == 512 && 1 <= at < top
    requires AllApart(list) && AllBelow(list, sect, slots, at)
    ensures var all := [Item(at * sect, data)] + list; AllApart(all) && AllBelow(all, sect, slots, top)
  {
    var x := Item(at * sect, data);
    SectorsApart(at, top, sect);
    MulMonotone(1, at, sect);
    forall i | 0 <= i < |list| ensures Apart(x, list[i]) && Below(list[i], sect, slots, top) {
      assert Below(list[i], sect, slots, at);
    }
    Prepend(x, list);
  }

  lemma RaiseTop(list: seq<Item>, sect: nat, slots: nat, a: nat, b: nat)
    requires AllBelow(list, sect, slots, a) && a <= b
    ensures AllBelow(list, sect, slots, b)
  {
    MulMonotone(a, b, sect);
    forall i | 0 <= i < |list| ensures Below(list[i], sect, slots, b) {
      assert Below(list[i], sect, slots, a);
    }
  }

  lemma {:induction false} ListedApart(g: Geometry, parts: seq<Part>, i: nat)
    requires Usable(g) && Fits(g, parts) && i <= |parts|
    ensures AllApart(Listed(g, parts, i))
    ensures AllBelow(Listed(g, parts, i), g.sect, Slots(|parts|, i), Cur(g, parts, i))
  {
    hide AllApart, AllBelow, Cur, NextEntry, EbrBytes, EntryBytes, Fits;
    if i == 0 {
      NothingApart(g.sect, Cur(g, parts, 0));
    } else {
      var k, n := i - 1, |parts|;
      ListedApart(g, parts, k);
      var list, at, top := Listed(g, parts, k), Cur(g, parts, k), Cur(g, parts, i);
      PartitionsApart(g, parts, k, i);
      if Logical(k, n) {
        if k == 3 {
          AddSlot(list, g.sect, 3, at, ExtItem(g, parts).data);
          list := [ExtItem(g, parts)] + list;
        }
        AddRecord(list, g.sect, 4, at, top, PartItem(g, parts, k).data);
        assert Listed(g, parts, i) == [PartItem(g, parts, k)] + list;
      } else {
        RaiseTop(list, g.sect, Slots(n, k), at, top);
        AddSlot(list, g.sect, k, top, PartItem(g, parts, k).data);
        assert Listed(g, parts, i) == [PartItem(g, parts, k)] + list;
      }
    }
  }

  lemma NothingApart(sect: nat, top: nat)
    ensures AllApart([]) && AllBelow([], sect, 0, top)
  {
  }

  /** Everything config_mbr writes on top of the empty table. */
  function Items(g: Geometry, parts: seq<Part>, k: nat): seq<Item>
    requires g.sect > 0
  {
    Blanks(|parts|, k) + Listed(g, parts, |parts|)
  }

  lemma {:induction false} ItemsApart(g: Geometry, parts: seq<Part>, k: nat)
    requires Usable(g) && Fits(g, parts) && k <= 4
    ensures AllApart(Items(g, parts, k))
    ensures AllBelow(Items(g, parts, k), g.sect, 4, g.num)
    ensures k > |parts| ==> AllBelow(Items(g, parts, k), g.sect, k, g.num)
  {
    hide AllApart, AllBelow, Cur, EntryBytes, Fits;
    var n := |parts|;
    if k <= n {
      ListedApart(g, parts, n);
      assert Items(g, parts, k) == Listed(g, parts, n);
      CurOnDisk(g, parts, n);
      RaiseTop(Listed(g, parts, n), g.sect, Slots(n, n), Cur(g, parts, n), g.num);
      RaiseSlots(Listed(g, parts, n), g.sect, Slots(n, n), 4, g.num);
    } else {
      ItemsApart(g, parts, k - 1);
      if k - 1 == n {
        ListedApart(g, parts, n);
        assert Items(g, parts, n) == Listed(g, parts, n);
        CurOnDisk(g, parts, n);
        RaiseTop(Listed(g, parts, n), g.sect, n, Cur(g, parts, n), g.num);
      }
      AddSlot(Items(g, parts, k - 1), g.sect, k - 1, g.num, EntryBytes(false, 0, 0, 0));
      assert Items(g, parts, k) == [Slot(k - 1, EntryBytes(false, 0, 0, 0))] + Items(g, parts, k - 1);
      RaiseSlots(Items(g, parts, k), g.sect, k, 4, g.num);
    }
  }

  lemma RaiseSlots(list: seq<Item>, sect: nat, a: nat, b: nat, top: nat)
    requires AllBelow(list, sect, a, top) && a <= b
    ensures AllBelow(list, sect, b, top)
  {
    forall i | 0 <= i < |list| ensures Below(list[i], sect, b, top) {
      assert Below(list[i], sect, a, top);
    }
  }

  // ----- After the commit

  /** A disk of the given size. */
  predicate DiskOf(disk: seq<byte>, g: Geometry) { |disk| == g.num * g.sect && g.num >= 1 }

  function After(disk: seq<byte>, g: Geometry, parts: seq<Part>): (r: seq<byte>)
    requires g.sect > 0
    ensures |r| == |disk|
  {
    Commit(disk, WriteList(g, parts))
  }

  lemma AfterIs(disk: seq<byte>, g: Geometry, parts: seq<Part>)
    requires g.sect > 0
    ensures After(disk, g, parts) == Commit(Applied(disk, EMPTY_TABLE), Items(g, parts, 4))
  {
    var list := WriteList(g, parts);
    assert list[1..] == Items(g, parts, 4);
  }

  lemma ItemStands(disk: seq<byte>, g: Geometry, parts: seq<Part>, x: Item)
    requires Usable(g) && Fits(g, parts) && DiskOf(disk, g) && x in Items(g, parts, 4)
    ensures StandsAt(After(disk, g, parts), x.offset, x.data)
  {
    hide AllApart, Items, WriteList, Commit, Fits;
    var list := Items(g, parts, 4);
    ItemsApart(g, parts, 4);
    AfterIs(disk, g, parts);
    var k :| 0 <= k < |list| && list[k] == x;
    assert Below(list[k], g.sect, 4, g.num);
    MulMonotone(1, g.num, g.sect);
    CommitStands(Applied(disk, EMPTY_TABLE), list, k);
  }

  lemma SignatureStands(disk: seq<byte>, g: Geometry, parts: seq<Part>)
    requires Usable(g) && Fits(g, parts) && DiskOf(disk, g)
    ensures |disk| >= 512 && StandsAt(After(disk, g, parts), 440, [0, 0, 0, 0, 0, 0])
    ensures Get16(After(disk, g, parts), 510) == SIGNATURE
  {
    hide AllApart, Items, WriteList, Commit, Fits, Le16, Get16;
    MulMonotone(1, g.num, g.sect);
    var now, list := Applied(disk, EMPTY_TABLE), Items(g, parts, 4);
    AfterIs(disk, g, parts);
    ItemsApart(g, parts, 4);
    OneStands(disk, EMPTY_TABLE);
    StandsParts(now, 440, Zeros(70), Le16(SIGNATURE));
    forall i | 0 <= i < |list| ensures Apart(Item(510, Le16(SIGNATURE)), list[i]) {
      assert Below(list[i], g.sect, 4, g.num);
    }
    CommitSpares(now, list, 510, Le16(SIGNATURE));
    assert Zeros(70) == [0, 0, 0, 0, 0, 0] + Zeros(64);
    StandsParts(now, 440, [0, 0, 0, 0, 0, 0], Zeros(64));
    forall i | 0 <= i < |list| ensures Apart(Item(440, [0, 0, 0, 0, 0, 0]), list[i]) {
      assert Below(list[i], g.sect, 4, g.num);
    }
    CommitSpares(now, list, 440, [0, 0, 0, 0, 0, 0]);
    Field16(After(disk, g, parts), 510, SIGNATURE);
  }

  // ----- Where the items are

  lemma {:induction false} PartListed(g: Geometry, parts: seq<Part>, i: nat, k: nat)
    requires g.sect > 0 && i < k <= |parts|
    ensures PartItem(g, parts, i) in Listed(g, parts, k)
    ensures i == 3 && |parts| > 4 ==> ExtItem(g, parts) in Listed(g, parts, k)
  {
    hide PartItem, ExtItem;
    if i < k - 1 {
      PartListed(g, parts, i, k - 1);
    }
  }

  lemma {:induction false} BlankListed(n: nat, k: nat, p: nat)
    requires n <= p < k
    ensures Slot(p, EntryBytes(false, 0, 0, 0)) in Blanks(n, k)
  {
    hide EntryBytes;
    if p < k - 1 {
      BlankListed(n, k - 1, p);
    }
  }

  // ----- What the reader finds

  /** The number that Linux gives to partition `i` of `n`, and that find_mbr_part computes. */
  function Number(i: nat, n: nat): nat { if Logical(i, n) then i + 2 else i + 1 }

  function Expected(g: Geometry, parts: seq<Part>, i: nat): Found
    requires g.sect > 0 && i < |parts|
  {
    Found(Number(i, |parts|), DataStart(g, parts, i), Length(g, parts, i), parts[i].kind,
          parts[i].active && !Logical(i, |parts|))
  }

  function ExpectedFrom(g: Geometry, parts: seq<Part>, i: nat): seq<Found>
    requires g.sect > 0 && i <= |parts|
    decreases |parts| - i
  {
    if i == |parts| then [] else [Expected(g, parts, i)] + ExpectedFrom(g, parts, i + 1)
  }

  /** The entry in slot `p`: empty, or up to the end of the disk for the chain, or the partition. */
  predicate SlotSays(e: Entry, g: Geometry, parts: seq<Part>, p: nat)
    requires g.sect > 0
  {
    if p >= |parts| then e == Told(false, 0, 0, 0)
    else if Logical(p, |parts|)
    then Cur(g, parts, 3) < g.num && e == Told(false, EXTENDED, Cur(g, parts, 3), g.num - Cur(g, parts, 3))
    else e == Told(parts[p].active, parts[p].kind, DataStart(g, parts, p), Length(g, parts, p)) && e.len > 0
         && e.kind != EXTENDED
  }

  lemma SlotReads(disk: seq<byte>, g: Geometry, parts: seq<Part>, p: nat)
    requires Usable(g) && Fits(g, parts) && DiskOf(disk, g) && p < 4 && |disk| >= 512
    ensures SlotSays(ReadEntry(After(disk, g, parts), 446 + 16 * p), g, parts, p)
  {
    hide EntryBytes, ReadEntry, After, Cur, Length, Listed, Sub32;
    var d, n := After(disk, g, parts), |parts|;
    if p >= n {
      BlankListed(n, 4, p);
      ItemStands(disk, g, parts, Slot(p, EntryBytes(false, 0, 0, 0)));
      EntryReads(d, 446 + 16 * p, false, 0, 0, 0);
    } else {
      PartListed(g, parts, p, n);
      PartitionsApart(g, parts, p, p + 1);
      PartitionsApart(g, parts, p, n);
      var at := Cur(g, parts, p);
      assert PartFits(g, parts, p);
      if Logical(p, n) {
        SubExact(g.num, at);
        ItemStands(disk, g, parts, ExtItem(g, parts));
        EntryReads(d, 446 + 16 * p, false, EXTENDED, at, g.num - at);
      } else {
        ItemStands(disk, g, parts, PartItem(g, parts, p));
        EntryReads(d, 446 + 16 * p, parts[p].active, parts[p].kind, at, Length(g, parts, p));
      }
    }
  }

  lemma EbrParts(disk: seq<byte>, at: nat, logical: seq<byte>, next: seq<byte>)
    requires |logical| == 16 && |next| == 16 && StandsAt(disk, at, EbrBytes(logical, next))
    ensures at + 512 <= |disk| && Get16(disk, at + 510) == SIGNATURE
    ensures StandsAt(disk, at + 446, logical) && StandsAt(disk, at + 462, next)
  {
    hide Get16, Le16, Zeros;
    StandsParts(disk, at, Zeros(446) + logical + next + Zeros(32), Le16(SIGNATURE));
    StandsParts(disk, at, Zeros(446) + logical + next, Zeros(32));
    StandsParts(disk, at, Zeros(446) + logical, next);
    StandsParts(disk, at, Zeros(446), logical);
    Field16(disk, at + 510, SIGNATURE);
  }

  lemma ZeroEntry()
    ensures Zeros(16) == EntryBytes(false, 0, 0, 0)
  {
  }

  /** The entry that leads on from the boot record of partition `i`: none behind the last one, and otherwise
      one that covers the next record and its partition, counted from the first record. */
  predicate NextSays(next: Entry, g: Geometry, parts: seq<Part>, i: nat)
    requires g.sect > 0 && 4 < |parts| && i < |parts|
  {
    if i + 1 == |parts| then next == Told(false, 0, 0, 0)
    else
      && Cur(g, parts, 3) <= Cur(g, parts, i + 1)
      && next == Told(false, EXTENDED, Cur(g, parts, i + 1) - Cur(g, parts, 3), 1 + Length(g, parts, i + 1))
  }

  /** The boot record at byte `b` describes partition `i` and leads to the next one. */
  predicate RecordSays(d: seq<byte>, b: nat, g: Geometry, parts: seq<Part>, i: nat)
    requires g.sect > 0 && 4 < |parts| && i < |parts| && b + 512 <= |d|
  {
    var logical, next := ReadEntry(d, b + 446), ReadEntry(d, b + 462);
    && Get16(d, b + 510) == SIGNATURE
    && logical == Told(false, parts[i].kind, 1, Length(g, parts, i))
    && NextSays(next, g, parts, i)
  }

  lemma RecordReads(disk: seq<byte>, g: Geometry, parts: seq<Part>, i: nat, b: nat)
    requires Usable(g) && Fits(g, parts) && DiskOf(disk, g) && i < |parts| && Logical(i, |parts|)
    requires b == Cur(g, parts, i) * g.sect
    ensures b + 512 <= |disk| && RecordSays(After(disk, g, parts), b, g, parts, i)
  {
    hide EntryBytes, ReadEntry, After, Cur, Length, EbrBytes, Get16, Listed, NextEntry;
    var d, at := After(disk, g, parts), Cur(g, parts, i);
    PartListed(g, parts, i, |parts|);
    ItemStands(disk, g, parts, PartItem(g, parts, i));
    var logical := EntryBytes(false, parts[i].kind, 1, Length(g, parts, i));
    EbrParts(d, b, logical, NextEntry(g, parts, i));
    PartitionsApart(g, parts, i, |parts|);
    EntryReads(d, b + 446, false, parts[i].kind, 1, Length(g, parts, i));
    NextReads(d, b + 462, g, parts, i);
  }

  lemma NextReads(d: seq<byte>, pos: nat, g: Geometry, parts: seq<Part>, i: nat)
    requires Usable(g) && Fits(g, parts) && i < |parts| && Logical(i, |parts|) && StandsAt(d, pos, NextEntry(g, parts, i))
    ensures NextSays(ReadEntry(d, pos), g, parts, i)
  {
    hide EntryBytes, ReadEntry, Cur, Length, KbToLba, Sub32, Fits;
    if i + 1 == |parts| {
      ZeroEntry();
      EntryReads(d, pos, false, 0, 0, 0);
    } else {
      var at, ext := Cur(g, parts, i + 1), Cur(g, parts, 3);
      CurGrows(g, parts, 3, i + 1);
      PartitionsApart(g, parts, i + 1, |parts|);
      NextLength(g, parts, i + 1);
      SubExact(at, ext);
      SubExact(g.num, at);
      var len := if parts[i + 1].kb.Some? then 1 + KbToLba(parts[i + 1].kb.value, g.sect) else g.num - at;
      EntryReads(d, pos, false, EXTENDED, at - ext, len);
    }
  }

  lemma NextLength(g: Geometry, parts: seq<Part>, i: nat)
    requires Usable(g) && Fits(g, parts) && i < |parts| && Logical(i, |parts|)
    ensures Length(g, parts, i) ==
            if parts[i].kb.Some? then KbToLba(parts[i].kb.value, g.sect) else g.num - Cur(g, parts, i) - 1
  {
    hide Cur, DataStart, KbToLba, Sub32, Fits;
    PartitionsApart(g, parts, i, i + 1);
    CurNext(g, parts, i);
    SubExact(g.num, DataStart(g, parts, i));
  }

  lemma ChainStep(d: seq<byte>, g: Geometry, parts: seq<Part>, i: nat, at: nat, b: nat, fuel: nat)
    requires g.sect > 0 && Logical(i, |parts|) && i < |parts| && fuel > 0 && b == at * g.sect && b + 512 <= |d|
    requires RecordSays(d, b, g, parts, i)
    ensures var ext := Cur(g, parts, 3);
            Chain(d, g.sect, ext, at, i + 2, fuel) ==
            [Found(i + 2, at + 1, Length(g, parts, i), parts[i].kind, false)]
            + if i + 1 < |parts| then Chain(d, g.sect, ext, Cur(g, parts, i + 1), i + 3, fuel - 1) else []
  {
    hide Cur, Length, Get16, ReadEntry, KbToLba, DataStart;
  }

  lemma {:induction false} ChainReads(disk: seq<byte>, g: Geometry, parts: seq<Part>, i: nat, fuel: nat)
    requires Usable(g) && Fits(g, parts) && DiskOf(disk, g) && i < |parts| && Logical(i, |parts|)
    requires fuel >= |parts| - i
    ensures Chain(After(disk, g, parts), g.sect, Cur(g, parts, 3), Cur(g, parts, i), i + 2, fuel) ==
            ExpectedFrom(g, parts, i)
    decreases |parts| - i
  {
    hide After, Cur, Length, Fits, RecordSays, Chain, DataStart;
    CurNext(g, parts, i);
    RecordReads(disk, g, parts, i, Cur(g, parts, i) * g.sect);
    ChainStep(After(disk, g, parts), g, parts, i, Cur(g, parts, i), Cur(g, parts, i) * g.sect, fuel);
    if i + 1 < |parts| {
      ChainReads(disk, g, parts, i + 1, fuel - 1);
    }
  }

  lemma {:induction false} TableReads(disk: seq<byte>, g: Geometry, parts: seq<Part>, p: nat, fuel: nat)
    requires Usable(g) && Fits(g, parts) && DiskOf(disk, g) && p <= 4 && |disk| >= 512 && fuel >= |parts|
    ensures Table(After(disk, g, parts), g.sect, p, fuel) ==
            if p == 4 || p >= |parts| then [] else ExpectedFrom(g, parts, p)
    decreases 4 - p
  {
    hide ReadEntry, After, Cur, Length, Chain, Fits;
    if p < 4 {
      SlotReads(disk, g, parts, p);
      TableReads(disk, g, parts, p + 1, fuel);
      if Logical(p, |parts|) {
        ChainReads(disk, g, parts, 3, fuel);
      }
    }
  }

  /** The round trip: after the commit a reader finds exactly the configured partitions, in order, with
      the places, sizes and types that were asked for. */
  lemma WalkFindsPartitions(disk: seq<byte>, g: Geometry, parts: seq<Part>, fuel: nat)
    requires Usable(g) && Fits(g, parts) && DiskOf(disk, g) && fuel >= |parts|
    ensures Walk(After(disk, g, parts), g.sect, fuel) == ExpectedFrom(g, parts, 0)
  {
    hide Table, After, Fits, Get16, ExpectedFrom;
    SignatureStands(disk, g, parts);
    TableReads(disk, g, parts, 0, fuel);
    NothingExpected(g, parts);
  }

  lemma NothingExpected(g: Geometry, parts: seq<Part>)
    requires g.sect > 0
    ensures |parts| == 0 ==> ExpectedFrom(g, parts, 0) == []
  {
  }

  /** And nothing is written into any partition, nor over the boot code. */
  lemma PartitionsUntouched(disk: seq<byte>, g: Geometry, parts: seq<Part>, at: nat, b: seq<byte>, i: nat)
    requires Usable(g) && Fits(g, parts) && DiskOf(disk, g) && StandsAt(disk, at, b)
    requires at + |b| <= 440
             || (i < |parts| && DataStart(g, parts, i) * g.sect <= at && at + |b| <= Cur(g, parts, i + 1) * g.sect)
    ensures StandsAt(After(disk, g, parts), at, b)
  {
    hide AllApart, Items, WriteList, Commit, Cur, Length, Fits;
    var now, list := Applied(disk, EMPTY_TABLE), Items(g, parts, 4);
    AfterIs(disk, g, parts);
    ItemsApart(g, parts, 4);
    if at + |b| > 440 {
      PartitionsApart(g, parts, i, i + 1);
      MulMonotone(1, DataStart(g, parts, i), g.sect);
    }
    OneSpares(disk, EMPTY_TABLE, at, b);
    forall k | 0 <= k < |list| ensures Apart(Item(at, b), list[k]) {
      assert Below(list[k], g.sect, 4, g.num);
      if at + |b| > 440 {
        ItemAvoids(g, parts, list[k], i);
      }
    }
    CommitSpares(now, list, at, b);
  }

  /** Every item lies in the boot sector or is the boot record of some partition. */
  lemma ItemAvoids(g: Geometry, parts: seq<Part>, x: Item, i: nat)
    requires Usable(g) && Fits(g, parts) && i < |parts| && x in Items(g, parts, 4)
    ensures x.offset + |x.data| <= DataStart(g, parts, i) * g.sect || Cur(g, parts, i + 1) * g.sect <= x.offset
  {
    hide Cur, Length, Fits;
    PartitionsApart(g, parts, i, i + 1);
    MulMonotone(1, DataStart(g, parts, i), g.sect);
    if x in Blanks(|parts|, 4) {
      BlankIsLow(|parts|, 4, x);
    } else {
      ListedAvoids(g, parts, x, i, |parts|);
    }
  }

  lemma {:induction false} BlankIsLow(n: nat, k: nat, x: Item)
    requires x in Blanks(n, k) && k <= 4
    ensures x.offset + |x.data| <= 512
  {
    hide EntryBytes;
    if x != Slot(k - 1, EntryBytes(false, 0, 0, 0)) {
      BlankIsLow(n, k - 1, x);
    }
  }

  lemma {:induction false} ListedAvoids(g: Geometry, parts: seq<Part>, x: Item, i: nat, k: nat)
    requires Usable(g) && Fits(g, parts) && i < |parts| && k <= |parts| && x in Listed(g, parts, k)
    requires 512 <= DataStart(g, parts, i) * g.sect
    ensures x.offset + |x.data| <= DataStart(g, parts, i) * g.sect || Cur(g, parts, i + 1) * g.sect <= x.offset
  {
    hide Cur, Length, Fits, EntryBytes, EbrBytes, NextEntry;
    var j := k - 1;
    if x == PartItem(g, parts, j) {
      if Logical(j, |parts|) {
        RecordAvoids(g, parts, i, j);
      }
    } else if j == 3 && |parts| > 4 && x == ExtItem(g, parts) {
    } else {
      ListedAvoids(g, parts, x, i, j);
    }
  }

  lemma RecordAvoids(g: Geometry, parts: seq<Part>, i: nat, j: nat)
    requires Usable(g) && Fits(g, parts) && i < |parts| && j < |parts| && Logical(j, |parts|)
    ensures var b := Cur(g, parts, j) * g.sect;
            b + 512 <= DataStart(g, parts, i) * g.sect || Cur(g, parts, i + 1) * g.sect <= b
  {
    hide Cur, Length, Fits;
    if j <= i {
      CurGrows(g, parts, j, i);
      PartitionsApart(g, parts, i, i + 1);
      SectorsApart(Cur(g, parts, j), DataStart(g, parts, i), g.sect);
    } else {
      CurGrows(g, parts, i + 1, j);
      MulMonotone(Cur(g, parts, i + 1), Cur(g, parts, j), g.sect);
    }
  }
}
