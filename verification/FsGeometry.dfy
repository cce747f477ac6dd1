/** Where the groups of an ext4 filesystem lie and what their headers take (ext4_utils/ext4_utils.c and
    the defaults of ext4_utils/make_ext4fs.c). */
module FsGeometry {
  import opened Common
  import opened AllocModel

  /** The size of a group descriptor. */
  const GROUP_DESC: nat := 32

  // ----- Backup superblocks

  function Power(b: nat, k: nat): nat { if k == 0 then 1 else b * Power(b, k - 1) }

  ghost predicate IsPower(a: int, b: nat) { exists k: nat :: k > 0 && a == Power(b, k) }

  lemma PowerGrows(b: nat, k: nat)
    requires b > 1 && k > 0
    ensures Power(b, k) >= b
  {
    if k > 1 {
      PowerGrows(b, k - 1);
      MulMonotone(1, Power(b, k - 1), b);
    }
  }

  lemma PowerDivides(b: nat, k: nat)
    requires b > 1 && k > 0
    ensures Power(b, k) % b == 0 && Power(b, k) / b == Power(b, k - 1)
  {
    assert Power(b, k) == Power(b, k - 1) * b + 0;
    DivModUnique(Power(b, k - 1), 0, b);
  }

  lemma Quotient(a: int, b: nat)
    requires b > 1 && a > b
    ensures 0 <= a / b < a && (a % b == 0 ==> a == b * (a / b))
  {
    assert a == (a / b) * b + a % b;
    MulMonotone(2, b, a / b);
  }

  lemma PowerStep(a: int, b: nat)
    requires b > 1 && a > b
    ensures a % b != 0 ==> !IsPower(a, b)
    ensures a % b == 0 ==> (IsPower(a, b) <==> IsPower(a / b, b))
    ensures 0 <= a / b < a
  {
    Quotient(a, b);
    assert Power(b, 1) == b * Power(b, 0) == b;
    if k: nat :| k > 0 && a == Power(b, k) {
      PowerDivides(b, k);
      assert k > 1;
      assert IsPower(a / b, b);
    }
    if a % b == 0 && IsPower(a / b, b) {
      var k: nat :| k > 0 && a / b == Power(b, k);
      assert a == Power(b, k + 1);
    }
  }

  /** is_power_of. */
  method IsPowerOf(a0: int, b: nat) returns (r: bool)
    requires b > 1
    ensures r <==> IsPower(a0, b)
  {
    hide IsPower;
    var a := a0;
    while a > b
      invariant IsPower(a0, b) <==> IsPower(a, b)
      decreases a
    {
      PowerStep(a, b);
      if a % b != 0 {
        return false;
      }
      a := a / b;
    }
    PowerBase(a, b);
    r := a == b;
  }

  lemma PowerBase(a: int, b: nat)
    requires b > 1 && a <= b
    ensures IsPower(a, b) <==> a == b
  {
    assert Power(b, 1) == b * Power(b, 0) == b;
    if k: nat :| k > 0 && a == Power(b, k) {
      PowerGrows(b, k);
    }
  }

  ghost predicate HasSuper(sparseSuper: bool, bg: int) {
    !sparseSuper || bg == 0 || bg == 1 || IsPower(bg, 3) || IsPower(bg, 5) || IsPower(bg, 7)
  }

  /** ext4_bg_has_super_block: groups 0 and 1 and the powers of 3, 5 and 7, or every group. */
  method HasSuperBlock(sparseSuper: bool, bg: int) returns (r: bool)
    ensures r <==> HasSuper(sparseSuper, bg)
  {
    if !sparseSuper || bg == 0 || bg == 1 {
      return true;
    }
    r := IsPowerOf(bg, 3);
    if !r {
      r := IsPowerOf(bg, 5);
    }
    if !r {
      r := IsPowerOf(bg, 7);
    }
  }

  // ----- Groups

  /** The number of groups and of blocks that are kept: a last group that is too short for its header of
      `lastHeader` blocks is dropped. The first data block is 0. */
  function Geometry(blocks: nat, bpg: nat, lastHeader: nat): (nat, nat)
    requires bpg > 0
  {
    var groups, lastSize := DivRoundUp(blocks, bpg), blocks % bpg;
    if 0 < lastSize < lastHeader then (groups - 1, blocks - lastSize) else (groups, blocks)
  }

  /** The blocks of a group that lie on the device. */
  function LimitOf(base: nat, bpg: nat, total: nat): nat {
    if base + bpg <= total then bpg else if base < total then total - base else 0
  }

  lemma KeptFits(blocks: nat, bpg: nat, lastHeader: nat, i: nat)
    requires bpg > 0 && i < Geometry(blocks, bpg, lastHeader).0
    ensures var (groups, total) := Geometry(blocks, bpg, lastHeader);
            && i * bpg < total && total <= groups * bpg && total <= blocks && groups <= DivRoundUp(blocks, bpg)
            && (i + 1 < groups ==> LimitOf(i * bpg, bpg, total) == bpg)
            && (i + 1 == groups ==>
                  || LimitOf(i * bpg, bpg, total) == bpg
                  || (groups == DivRoundUp(blocks, bpg) && lastHeader <= LimitOf(i * bpg, bpg, total)))
  {
    hide *;
    assert blocks == blocks / bpg * bpg + blocks % bpg;
    GroupFits(blocks / bpg, blocks % bpg, bpg, lastHeader, i);
  }

  lemma GroupFits(q: nat, r: nat, bpg: nat, lastHeader: nat, i: nat)
    requires r < bpg && i < Geometry(q * bpg + r, bpg, lastHeader).0
    ensures var (groups, total) := Geometry(q * bpg + r, bpg, lastHeader);
            && i * bpg < total && total <= groups * bpg && total <= q * bpg + r && groups <= DivRoundUp(q * bpg + r, bpg)
            && (i + 1 < groups ==> LimitOf(i * bpg, bpg, total) == bpg)
            && (i + 1 == groups ==>
                  || LimitOf(i * bpg, bpg, total) == bpg
                  || (groups == DivRoundUp(q * bpg + r, bpg) && lastHeader <= LimitOf(i * bpg, bpg, total)))
  {
    hide LimitOf, Geometry, DivRoundUp;
    GeometryValue(q, r, bpg, lastHeader);
    WholeGroups(q, r, bpg);
    GroupsApart(i, q, bpg);
    GeometryOfGroup(i, q, r, bpg, i * bpg, q * bpg, if 0 < r < lastHeader then 0 else r);
  }

  lemma GeometryValue(q: nat, r: nat, bpg: nat, lastHeader: nat)
    requires r < bpg
    ensures (q + 1) * bpg == q * bpg + bpg
    ensures Geometry(q * bpg + r, bpg, lastHeader) ==
            if 0 < r < lastHeader then (q, q * bpg) else (if r > 0 then q + 1 else q, q * bpg + r)
  {
    hide DivRoundUp;
    WholeGroups(q, r, bpg);
    DivModUnique(q, r, bpg);
  }

  /** Group `i` at `base`, with `q` whole groups up to `whole` and `r` blocks behind them. */
  lemma GeometryOfGroup(i: nat, q: nat, r: nat, bpg: nat, base: nat, whole: nat, rest: nat)
    requires i < q ==> base + bpg <= whole
    requires i == q ==> base == whole
    requires rest <= r < bpg
    ensures i < q ==> base < whole + rest && LimitOf(base, bpg, whole + rest) == bpg
    ensures i == q && rest > 0 ==> base < whole + rest && LimitOf(base, bpg, whole + rest) == rest
  {
  }

  lemma WholeGroups(q: nat, r: nat, bpg: nat)
    requires r < bpg
    ensures DivRoundUp(q * bpg + r, bpg) == if r > 0 then q + 1 else q
  {
    if r > 0 {
      assert q * bpg + r + bpg - 1 == (q + 1) * bpg + (r - 1);
      DivModUnique(q + 1, r - 1, bpg);
    } else {
      DivModUnique(q, bpg - 1, bpg);
    }
  }

  /** The parameters of a filesystem (struct fs_info) that decide where its groups lie; `blocks` is the
      length of the device in blocks. */
  datatype Info = Info(blockSize: nat, blocks: nat, bpg: nat, ipg: nat, inodeSize: nat, reserve: nat,
                       sparseSuper: bool) {
    predicate Valid() { blockSize > 1024 && 0 < bpg <= 8 * blockSize && blocks + bpg < TWO_32 }

    function TableBlocks(): nat
      requires Valid()
    {
      DivRoundUp(ipg * inodeSize, blockSize)
    }

    function AllGroups(): nat
      requires Valid()
    {
      DivRoundUp(blocks, bpg)
    }

    function DescBlocks(): nat
      requires Valid()
    {
      DivRoundUp(AllGroups() * GROUP_DESC, blockSize)
    }

    /** What a copy of the superblock and the descriptors takes. */
    function SuperBlocks(): nat
      requires Valid()
    {
      1 + DescBlocks() + reserve
    }

    /** The blocks at the start of group `bg` that are never given out: the copy, if there is one, two
        bitmaps and the inode table. */
    ghost function Header(bg: int): nat
      requires Valid()
    {
      2 + TableBlocks() + if HasSuper(sparseSuper, bg) then SuperBlocks() else 0
    }

    ghost function Kept(): (nat, nat)
      requires Valid()
    {
      Geometry(blocks, bpg, Header(AllGroups() - 1))
    }

    ghost function Groups(): nat
      requires Valid()
    {
      Kept().0
    }

    ghost function Total(): nat
      requires Valid()
    {
      Kept().1
    }

    /** No header is larger than a group. */
    ghost predicate HeadersFit()
      requires Valid()
    {
      forall i | 0 <= i < Groups() :: Header(i) <= bpg
    }
  }

  /** The header of a group, as init_bg and ext4_create_fs_aux_info both reckon it. */
  method GroupHeader(info: Info, bg: int) returns (header: nat)
    requires info.Valid()
    ensures header == info.Header(bg)
  {
    header := 2 + info.TableBlocks();
    var super := HasSuperBlock(info.sparseSuper, bg);
    if super {
      header := header + (1 + info.DescBlocks() + info.reserve);
    }
  }

  lemma LastGroup(blocks: nat, bpg: nat)
    requires bpg > 0
    ensures blocks % bpg <= blocks && (blocks % bpg > 0 ==> DivRoundUp(blocks, bpg) > 0)
  {
    RoundUpPositive(blocks, bpg);
    assert blocks == blocks / bpg * bpg + blocks % bpg;
    MulMonotone(0, blocks / bpg, bpg);
  }

  /** The end of ext4_create_fs_aux_info: how many groups and blocks are used. */
  method CreateFsAuxInfo(info: Info) returns (groups: nat, total: nat)
    requires info.Valid()
    ensures groups == info.Groups() && total == info.Total()
  {
    hide Info.Header, DivRoundUp;
    groups, total := info.AllGroups(), info.blocks;
    var lastSize := info.blocks % info.bpg;
    var lastHeader := GroupHeader(info, groups - 1);
    LastGroup(info.blocks, info.bpg);
    if lastSize > 0 && lastSize < lastHeader {
      groups := groups - 1;
      total := total - lastSize;
    }
  }

  /** Then every group starts on the device and has its header there, and all but the last are whole. */
  lemma GeometryFits(info: Info, i: nat)
    requires info.Valid() && info.HeadersFit() && i < info.Groups()
    ensures i * info.bpg < info.Total() <= info.Groups() * info.bpg && info.Total() <= info.blocks
    ensures i + 1 < info.Groups() ==> LimitOf(i * info.bpg, info.bpg, info.Total()) == info.bpg
    ensures 0 < info.Header(i) <= LimitOf(i * info.bpg, info.bpg, info.Total())
  {
    hide LimitOf, HasSuper;
    KeptFits(info.blocks, info.bpg, info.Header(info.AllGroups() - 1), i);
  }

  // ----- The parameters that make_ext4fs chooses

  /** compute_inodes_per_group: whole blocks of the inode table. */
  function InodesPerGroup(blockSize: nat, inodeSize: nat, inodes: nat, groups: nat): nat
    requires 0 < inodeSize <= blockSize && groups > 0
  {
    DivPositive(blockSize, inodeSize);
    AlignUp(DivRoundUp(inodes, groups), blockSize / inodeSize)
  }

  lemma DivPositive(x: nat, y: nat)
    requires 0 < y <= x
    ensures x / y > 0
  {
    DivMonotone(y, x, y);
  }

  /** compute_bg_desc_reserve_blocks: room for a thousand times as many groups. */
  function DescReserve(blockSize: nat, groups: nat): nat
    requires blockSize > 0
  {
    var desc := DivRoundUp(groups * GROUP_DESC, blockSize);
    var room := DivRoundUp(groups * 1024 * GROUP_DESC, blockSize);
    DivMonotone(groups * GROUP_DESC + blockSize - 1, groups * 1024 * GROUP_DESC + blockSize - 1, blockSize);
    if room - desc > blockSize / 4 then blockSize / 4 else room - desc
  }

  /** make_ext4fs_internal, with the sparse_super feature it always sets. */
  function MakeInfo(blockSize: nat, blocks: nat, bpg: nat, inodes: nat, inodeSize: nat): Info
    requires bpg > 0 && blocks > 0 && 0 < inodeSize <= blockSize
  {
    var groups := DivRoundUp(blocks, bpg);
    RoundUpPositive(blocks, bpg);
    Info(blockSize, blocks, bpg, InodesPerGroup(blockSize, inodeSize, inodes, groups), inodeSize,
         DescReserve(blockSize, groups), true)
  }
}
