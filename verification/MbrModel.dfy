/** Partition tables as libdiskconfig/config_mbr.c lays them out, and the list of writes that puts them on
    the disk (libdiskconfig/write_lst.c). */
module MbrModel {
  import opened Common
  import opened Bytes

  /** struct part_info; no length stands for 0xffffffff, the rest of the disk. */
  datatype Part = Part(active: bool, kind: byte, kb: Option<nat>)

  /** struct disk_info. */
  datatype Geometry = Geometry(sect: nat, skip: nat, num: nat)

  /** struct write_list. */
  datatype Item = Item(offset: nat, data: seq<byte>)

  const EXTENDED: byte := 5
  const SIGNATURE: nat := 0xAA55

  // ----- Entries

  function Chs(len: nat): (s: seq<byte>)
    ensures |s| == 3
  {
    if len > 0 then [255, 255, 255] else [0, 0, 0]
  }

  /** struct pc_partition as cfg_pentry fills it. */
  function EntryBytes(active: bool, kind: byte, start: nat, len: nat): (s: seq<byte>)
    ensures |s| == 16
  {
    [if active then 0x80 else 0] + Chs(len) + [kind] + Chs(len) + Le32(start) + Le32(len)
  }

  /** An extended boot record: the logical partition, and the entry that leads to the next record. */
  function EbrBytes(logical: seq<byte>, next: seq<byte>): (s: seq<byte>)
    requires |logical| == 16 && |next| == 16
    ensures |s| == 512
  {
    Zeros(446) + logical + next + Zeros(32) + Le16(SIGNATURE)
  }

  function Slot(p: nat, entry: seq<byte>): Item { Item(446 + 16 * p, entry) }

  // ----- Places

  /** kb_to_lba for a sector size that is a power of two: masking rounds down. */
  function KbToLba(kb: nat, sect: nat): nat
    requires sect > 0
  {
    AlignDown(kb * 1024 + sect - 1, sect) / sect % TWO_32
  }

  /** Subtraction of 32-bit unsigned numbers. */
  function Sub32(a: nat, b: nat): nat { (a as int - b) % TWO_32 }

  predicate Logical(i: nat, n: nat) { n > 4 && i >= 3 }

  /** The sector counter of config_mbr before partition `i`. */
  function Cur(g: Geometry, parts: seq<Part>, i: nat): nat
    requires g.sect > 0 && i <= |parts|
    decreases i, 0
  {
    if i == 0 then g.skip else (DataStart(g, parts, i - 1) + Length(g, parts, i - 1)) % TWO_32
  }

  /** The sector behind the boot record of partition `i`, if it is a logical one. */
  function Place(g: Geometry, parts: seq<Part>, i: nat): nat
    requires g.sect > 0 && i < |parts|
    decreases i, 1
  {
    Cur(g, parts, i) + if Logical(i, |parts|) then 1 else 0
  }

  /** The first sector of partition `i`: that place, counted on 32 bits. */
  function DataStart(g: Geometry, parts: seq<Part>, i: nat): nat
    requires g.sect > 0 && i < |parts|
    decreases i, 2
  {
    Place(g, parts, i) % TWO_32
  }

  function Length(g: Geometry, parts: seq<Part>, i: nat): nat
    requires g.sect > 0 && i < |parts|
    decreases i, 3
  {
    match parts[i].kb
    case Some(kb) => KbToLba(kb, g.sect)
    case None => Sub32(g.num, DataStart(g, parts, i))
  }

  // ----- Items

  /** The entry that takes up everything from the first boot record on. */
  function ExtItem(g: Geometry, parts: seq<Part>): Item
    requires g.sect > 0 && |parts| > 4
  {
    var start := Cur(g, parts, 3);
    Slot(3, EntryBytes(false, EXTENDED, start, Sub32(g.num, start)))
  }

  /** What the boot record of partition `i` says about the next one. */
  function NextEntry(g: Geometry, parts: seq<Part>, i: nat): (s: seq<byte>)
    requires g.sect > 0 && Logical(i, |parts|) && i < |parts|
    ensures |s| == 16
  {
    if i + 1 < |parts| then
      var at, ext := Cur(g, parts, i + 1), Cur(g, parts, 3);
      var len := if parts[i + 1].kb.Some? then 1 + KbToLba(parts[i + 1].kb.value, g.sect) else Sub32(g.num, at);
      EntryBytes(false, EXTENDED, Sub32(at, ext), len)
    else Zeros(16)
  }

  /** mk_pri_pentry or mk_ext_pentry for partition `i`. */
  function PartItem(g: Geometry, parts: seq<Part>, i: nat): Item
    requires g.sect > 0 && i < |parts|
  {
    var len := Length(g, parts, i);
    if Logical(i, |parts|)
    then Item(Cur(g, parts, i) * g.sect,
              EbrBytes(EntryBytes(false, parts[i].kind, 1, len), NextEntry(g, parts, i)))
    else Slot(i, EntryBytes(parts[i].active, parts[i].kind, Cur(g, parts, i), len))
  }

  /** The write list after the first `i` partitions: every new item comes to the front. */
  function Listed(g: Geometry, parts: seq<Part>, i: nat): seq<Item>
    requires g.sect > 0 && i <= |parts|
  {
    if i == 0 then []
    else
      [PartItem(g, parts, i - 1)]
      + (if i - 1 == 3 && |parts| > 4 then [ExtItem(g, parts)] else [])
      + Listed(g, parts, i - 1)
  }

  /** Blank entries for the slots from the number of partitions up to `k`. */
  function Blanks(n: nat, k: nat): seq<Item>
    decreases k
  {
    if k <= n then [] else [Slot(k - 1, EntryBytes(false, 0, 0, 0))] + Blanks(n, k - 1)
  }

  /** mk_empty_ptable. */
  const EMPTY_TABLE := Item(440, Zeros(70) + Le16(SIGNATURE))

  /** The list config_mbr returns, when it returns one. */
  function WriteList(g: Geometry, parts: seq<Part>): seq<Item>
    requires g.sect > 0
  {
    [EMPTY_TABLE] + Blanks(|parts|, 4) + Listed(g, parts, |parts|)
  }

  // ----- Room

  /** The space check of config_mbr for partition `i`, in 32-bit arithmetic. */
  predicate PassesCheck(g: Geometry, parts: seq<Part>, i: nat)
    requires g.sect > 0 && i < |parts|
  {
    && DataStart(g, parts, i) < g.num
    && (parts[i].kb.Some? ==>
          (DataStart(g, parts, i) + parts[i].kb.value / g.sect * 1024 % TWO_32) % TWO_32 <= g.num)
    && (parts[i].kb.None? && Logical(i, |parts|) ==> i + 1 == |parts|)
  }

  /** config_mbr succeeds. */
  ghost predicate Accepted(g: Geometry, parts: seq<Part>)
    requires g.sect > 0
  {
    forall i | 0 <= i < |parts| :: PassesCheck(g, parts, i)
  }

  /** A disk that config_mbr can be used on: sectors of at least 512 bytes, and the boot sector is left
      free. */
  predicate Usable(g: Geometry) { g.sect >= 512 && 1 <= g.skip <= g.num < TWO_32 }

  /** Every partition has a sector, its sectors can be counted in 32 bits, and it ends on the disk; only
      the last one may fill the rest. */
  ghost predicate Fits(g: Geometry, parts: seq<Part>)
    requires g.sect > 0
  {
    forall i | 0 <= i < |parts| :: PartFits(g, parts, i)
  }

  predicate PartFits(g: Geometry, parts: seq<Part>, i: nat)
    requires g.sect > 0 && i < |parts|
  {
    && parts[i].kind != EXTENDED && Length(g, parts, i) > 0
    && Place(g, parts, i) + Length(g, parts, i) <= g.num
    && (parts[i].kb.Some? ==> DivRoundUp(parts[i].kb.value * 1024, g.sect) < TWO_32)
    && (parts[i].kb.None? ==> i + 1 == |parts|)
  }
}
