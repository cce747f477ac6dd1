/** The inode-renumbering tool of ext4_utils/ext4fixup.c, as total functions on the on-disk state.

    The tool gives every block group more inodes. An inode keeps its place on the disk, so its
    number changes, and every directory entry has to be rewritten. A word in the boot sector says
    how far the tool has got; whoever restarts the tool after a stop continues from that word.

    Every write to the device goes through a `Run`, which carries the number of writes left before
    the machine stops. A schedule of stops is then a sequence of such numbers. */
module FixupModel {
  import opened Common

  const HIGH_BIT: nat := 0x8000_0000
  const ROOT_INO: nat := 2

  datatype FileType = Unknown | Directory | Other

  datatype Entry = Entry(inode: nat, name: string, fileType: FileType)

  /** Where an inode sits: its group, and its index in the inode table of that group. */
  datatype Pos = Pos(group: nat, offset: nat)

  datatype Inode = Inode(isDir: bool, blocks: seq<nat>)

  datatype Superblock =
    Superblock(inodesPerGroup: nat, inodesCount: nat, freeInodes: nat, descSizeLowBit: bool)

  /** What the tool reads but never writes. `inodesPerBlock` is block_size / inode_size. */
  datatype Volume =
    Volume(inodes: map<Pos, Inode>, groups: nat, hasSuper: seq<bool>, inodesPerBlock: nat)

  /** What the tool writes. Superblock copies, descriptor copies and inode bitmaps are indexed by
      group; entry 0 of the first two is the primary copy. A descriptor copy is reduced to the free
      inode count of each group. */
  datatype Disk = Disk(
    magic: nat,
    dirs: map<nat, seq<Entry>>,
    supers: seq<Superblock>,
    descs: seq<seq<nat>>,
    bitmaps: seq<seq<bool>>)

  datatype Outcome = Ok | Stopped | Failed

  /** A run in progress: the disk, the writes left before the machine stops, and how it stands. */
  datatype Run = Run(disk: Disk, budget: nat, outcome: Outcome)

  datatype Mode = Sanity | Mark | Update

  datatype FixupState = Unset | MarkingInums | UpdatingInums | UpdatingSb

  // ----- Inode numbers

  /** The place of inode `inum` (read_inode); the subtraction is on 32 bits. */
  function PosOf(ipg: nat, inum: nat): Pos
    requires ipg > 0
  {
    var z := (inum + TWO_32 - 1) % TWO_32;
    Pos(z / ipg, z % ipg)
  }

  function ComputeNewInum(ipg: nat, npg: nat, inum: nat): nat
    requires ipg > 0
  {
    var p := PosOf(ipg, inum);
    (p.group * npg + p.offset + 1) % TWO_32
  }

  predicate IsMarked(inode: nat) { inode >= HIGH_BIT }

  function SetMark(inode: nat): nat { if IsMarked(inode) then inode else inode + HIGH_BIT }

  function ClearMark(inode: nat): nat { inode % HIGH_BIT }

  // ----- The state word

  const MAGIC_MARKING: nat := 0x7000151515565512
  const MAGIC_UPDATING: nat := 0x6121131211735123
  const MAGIC_UPDATING_SB: nat := 0x15e1715151558477

  function GetState(magic: nat): FixupState {
    if magic == MAGIC_MARKING then MarkingInums
    else if magic == MAGIC_UPDATING then UpdatingInums
    else if magic == MAGIC_UPDATING_SB then UpdatingSb
    else Unset
  }

  function MagicOf(state: FixupState): nat {
    match state
    case MarkingInums => MAGIC_MARKING
    case UpdatingInums => MAGIC_UPDATING
    case UpdatingSb => MAGIC_UPDATING_SB
    case Unset => 0
  }

  // ----- Single writes

  /** One write: the machine stops instead when no write is left. */
  function Write(r: Run, disk: Disk): Run {
    if r.budget == 0 then r.(outcome := Stopped) else Run(disk, r.budget - 1, Ok)
  }

  function WriteDirBlock(r: Run, block: nat, content: seq<Entry>): Run {
    Write(r, r.disk.(dirs := r.disk.dirs[block := content]))
  }

  function WriteSuper(r: Run, group: nat, sb: Superblock): Run
    requires group < |r.disk.supers|
  {
    Write(r, r.disk.(supers := r.disk.supers[group := sb]))
  }

  /** set_fs_fixup_state: the word first, then the primary superblock with the bit that makes the
      filesystem unmountable. */
  function SetState(r: Run, state: FixupState): Run
    requires |r.disk.supers| > 0
  {
    var r1 := Write(r, r.disk.(magic := MagicOf(state)));
    if r1.outcome != Ok then r1
    else WriteSuper(r1, 0, r1.disk.supers[0].(descSizeLowBit := state != Unset))
  }

  // ----- The directory walk

  /** is_entry_dir; None stands for an inode that cannot be read. */
  function IsEntryDir(vol: Volume, ipg: nat, e: Entry, mode: Mode): Option<bool>
    requires ipg > 0
  {
    match e.fileType
    case Directory => Some(true)
    case Other => Some(false)
    case Unknown =>
      if mode == Update && !IsMarked(e.inode) then Some(false)
      else
        var p := PosOf(ipg, ClearMark(e.inode));
        if p in vol.inodes then Some(vol.inodes[p].isDir) else None
  }

  predicate IsDots(name: string) { name == "." || name == ".." }

  /** Whether the walk enters the directory an entry names: not for the dot entries, and while
      updating only when the entry still has its old number. */
  predicate Descends(isDir: bool, e: Entry, mode: Mode) {
    isDir && !IsDots(e.name) && (mode == Update ==> IsMarked(e.inode))
  }

  function ProcessEntry(mode: Mode, ipg: nat, npg: nat, e: Entry): Entry
    requires ipg > 0
  {
    match mode
    case Sanity => e
    case Mark => e.(inode := SetMark(e.inode))
    case Update =>
      if IsMarked(e.inode) then e.(inode := ComputeNewInum(ipg, npg, ClearMark(e.inode))) else e
  }

  /** The blocks of a directory, as read into its buffer. */
  function ReadDir(dirs: map<nat, seq<Entry>>, blocks: seq<nat>): (bufs: seq<seq<Entry>>)
    requires forall b | b in blocks :: b in dirs
  {
    seq(|blocks|, i requires 0 <= i < |blocks| => dirs[blocks[i]])
  }

  /** The write-back loop at the end of recurse_dir. */
  function WriteDir(r: Run, blocks: seq<nat>, bufs: seq<seq<Entry>>, i: nat): Run
    requires |bufs| == |blocks|
    decreases |blocks| - i
  {
    if i >= |blocks| then r
    else
      var r1 := WriteDirBlock(r, blocks[i], bufs[i]);
      if r1.outcome != Ok then r1 else WriteDir(r1, blocks, bufs, i + 1)
  }

  /** recurse_dir on the directory at `p`. `depth` bounds the recursion, as the stack does. */
  function RecurseDir(vol: Volume, ipg: nat, npg: nat, r: Run, p: Pos, mode: Mode, depth: nat): Run
    requires ipg > 0
    decreases depth, 1, 0, 0
  {
    if depth == 0 || p !in vol.inodes || !vol.inodes[p].isDir then r.(outcome := Failed)
    else
      var blocks := vol.inodes[p].blocks;
      if exists b | b in blocks :: b !in r.disk.dirs then r.(outcome := Failed)
      else
        var (r1, bufs) := Walk(vol, ipg, npg, r, ReadDir(r.disk.dirs, blocks), 0, 0, mode, depth);
        if r1.outcome != Ok || mode == Sanity then r1 else WriteDir(r1, blocks, bufs, 0)
  }

  /** The loop of recurse_dir over the entries of the buffer, from entry `j` of block `i` on. An
      entry with inode 0 ends the directory. Subdirectories come before their own entry. */
  function Walk(vol: Volume, ipg: nat, npg: nat, r: Run, bufs: seq<seq<Entry>>, i: nat, j: nat,
                mode: Mode, depth: nat): (res: (Run, seq<seq<Entry>>))
    requires ipg > 0 && depth > 0
    ensures |res.1| == |bufs|
    decreases depth, 0, |bufs| - i, if i < |bufs| then |bufs[i]| - j else 0
  {
    if i >= |bufs| then (r, bufs)
    else if j >= |bufs[i]| then Walk(vol, ipg, npg, r, bufs, i + 1, 0, mode, depth)
    else
      var e := bufs[i][j];
      if e.inode == 0 then (r, bufs)
      else
        var isDir := IsEntryDir(vol, ipg, e, mode);
        if isDir == None then (r.(outcome := Failed), bufs)
        else
          var r1 := if Descends(isDir.value, e, mode)
                    then RecurseDir(vol, ipg, npg, r, PosOf(ipg, ClearMark(e.inode)), mode, depth - 1)
                    else r;
          if r1.outcome != Ok then (r1, bufs)
          else
            Walk(vol, ipg, npg, r1, bufs[i := bufs[i][j := ProcessEntry(mode, ipg, npg, e)]],
                 i, j + 1, mode, depth)
  }

  // ----- Superblocks, descriptors and inode bitmaps

  /** check_inode_bitmap on one bitmap. */
  function ClearBits(bits: seq<bool>, lo: nat, hi: nat): (r: seq<bool>)
    ensures |r| == |bits|
  {
    seq(|bits|, k requires 0 <= k < |bits| => if lo <= k < hi then false else bits[k])
  }

  function BitmapPass(r: Run, ipg: nat, npg: nat, i: nat): (r': Run)
    ensures r'.disk == r.disk.(bitmaps := r'.disk.bitmaps) && |r'.disk.bitmaps| == |r.disk.bitmaps|
    decreases |r.disk.bitmaps| - i
  {
    if i >= |r.disk.bitmaps| then r
    else
      var cleared := ClearBits(r.disk.bitmaps[i], ipg, npg);
      var r1 := if cleared == r.disk.bitmaps[i] then r
                else Write(r, r.disk.(bitmaps := r.disk.bitmaps[i := cleared]));
      if r1.outcome != Ok then r1 else BitmapPass(r1, ipg, npg, i + 1)
  }

  /** The sanity checks of update_superblocks_and_bg_desc. */
  predicate ChecksPass(vol: Volume, sb: Superblock, npg: nat)
    requires vol.inodesPerBlock > 0
  {
    && sb.inodesPerGroup <= npg
    && sb.inodesCount + vol.groups * (npg - sb.inodesPerGroup) == npg * vol.groups
    && npg % vol.inodesPerBlock == 0
  }

  function GrownSuper(vol: Volume, sb: Superblock, npg: nat): Superblock
    requires sb.inodesPerGroup <= npg
  {
    var extra := vol.groups * (npg - sb.inodesPerGroup);
    sb.(inodesPerGroup := npg, inodesCount := sb.inodesCount + extra,
        freeInodes := sb.freeInodes + extra)
  }

  /** Free inode counts after the descriptors have been adjusted in memory; the field has 16 bits. */
  function GrownCounts(counts: seq<nat>, extra: nat): (r: seq<nat>)
    ensures |r| == |counts|
  {
    seq(|counts|, k requires 0 <= k < |counts| => (counts[k] + extra) % TWO_16)
  }

  /** The write loop of update_superblocks_and_bg_desc: for each group that holds a copy, the
      superblock and then the descriptors. */
  function SuperPass(vol: Volume, r: Run, sb: Superblock, counts: seq<nat>, i: nat): Run
    requires |r.disk.supers| == |r.disk.descs| == |vol.hasSuper|
    decreases |vol.hasSuper| - i
  {
    if i >= |vol.hasSuper| then r
    else if !vol.hasSuper[i] then SuperPass(vol, r, sb, counts, i + 1)
    else
      var copy := if i == 0 then sb else sb.(descSizeLowBit := false);
      var r1 := WriteSuper(r, i, copy);
      if r1.outcome != Ok then r1
      else
        var r2 := Write(r1, r1.disk.(descs := r1.disk.descs[i := counts]));
        if r2.outcome != Ok then r2 else SuperPass(vol, r2, copy, counts, i + 1)
  }

  /** update_superblocks_and_bg_desc in state UPDATING_SB. `counts` are the primary descriptors as
      read when the tool started; `ipg` is the group size it started with. The superblock is read
      before the bitmaps are written. */
  function UpdateSuperblocks(vol: Volume, r: Run, ipg: nat, npg: nat, counts: seq<nat>): Run
    requires |r.disk.supers| == |r.disk.descs| == |vol.hasSuper| > 0 && vol.inodesPerBlock > 0
  {
    var sb := r.disk.supers[0];
    var r1 := BitmapPass(r, ipg, npg, 0);
    if r1.outcome != Ok then r1
    else if !ChecksPass(vol, sb, npg) then r1.(outcome := Failed)
    else SuperPass(vol, r1, GrownSuper(vol, sb, npg), GrownCounts(counts, npg - sb.inodesPerGroup), 0)
  }

  // ----- The driver

  function PhaseUnset(vol: Volume, ipg: nat, npg: nat, r: Run, depth: nat): Run
    requires ipg > 0 && |r.disk.supers| > 0 && vol.inodesPerBlock > 0
  {
    if r.outcome != Ok || GetState(r.disk.magic) != Unset then r
    else
      var r1 := RecurseDir(vol, ipg, npg, r, PosOf(ipg, ROOT_INO), Sanity, depth);
      if r1.outcome != Ok then r1
      else if !ChecksPass(vol, r.disk.supers[0], npg) then r.(outcome := Failed)
      else SetState(r, MarkingInums)
  }

  /** A directory pass followed by the step to the next state. */
  function PhaseWalk(vol: Volume, ipg: nat, npg: nat, r: Run, depth: nat, mode: Mode,
                     from: FixupState, to: FixupState): Run
    requires ipg > 0
  {
    if r.outcome != Ok || GetState(r.disk.magic) != from then r
    else
      var r1 := RecurseDir(vol, ipg, npg, r, PosOf(ipg, ROOT_INO), mode, depth);
      if r1.outcome != Ok || |r1.disk.supers| == 0 then r1 else SetState(r1, to)
  }

  function PhaseSuper(vol: Volume, ipg: nat, npg: nat, r: Run, counts: seq<nat>): Run {
    if r.outcome != Ok || GetState(r.disk.magic) != UpdatingSb then r
    else if !(|r.disk.supers| == |r.disk.descs| == |vol.hasSuper| > 0) || vol.inodesPerBlock == 0 then
      r.(outcome := Failed)
    else
      var r1 := UpdateSuperblocks(vol, r, ipg, npg, counts);
      if r1.outcome != Ok || |r1.disk.supers| == 0 then r1 else SetState(r1, Unset)
  }

  /** Everything ext4fixup_internal does before the superblock phase. */
  function BeforeSuper(vol: Volume, ipg: nat, npg: nat, d: Disk, budget: nat, depth: nat): Run
    requires ipg > 0 && |d.supers| > 0 && vol.inodesPerBlock > 0
  {
    var r1 := PhaseUnset(vol, ipg, npg, Run(d, budget, Ok), depth);
    var r2 := PhaseWalk(vol, ipg, npg, r1, depth, Mark, MarkingInums, UpdatingInums);
    PhaseWalk(vol, ipg, npg, r2, depth, Update, UpdatingInums, UpdatingSb)
  }

  /** One invocation of the tool on disk `d`, stopped after `budget` writes. */
  function Fixup(vol: Volume, d: Disk, budget: nat, depth: nat): Run {
    var bad := Run(d, budget, Failed);
    if |d.supers| == 0 || |d.descs| == 0 || vol.inodesPerBlock == 0 then bad
    else if d.supers[0].inodesPerGroup == 0 then bad
    else
      var ipg := d.supers[0].inodesPerGroup;
      var npg := AlignUp(ipg, vol.inodesPerBlock);
      var root := PosOf(ipg, ROOT_INO);
      if root !in vol.inodes || !vol.inodes[root].isDir then bad
      else PhaseSuper(vol, ipg, npg, BeforeSuper(vol, ipg, npg, d, budget, depth), d.descs[0])
  }

  /** The disk after one invocation per element of `schedule`. */
  function AfterRuns(vol: Volume, d: Disk, schedule: seq<nat>, depth: nat): Disk
    decreases |schedule|
  {
    if schedule == [] then d
    else AfterRuns(vol, Fixup(vol, d, schedule[0], depth).disk, schedule[1..], depth)
  }

  // ----- What a directory tree means

  /** The inode number of the first entry called `name`, from entry `j` of block `i` on. */
  function FindFrom(bufs: seq<seq<Entry>>, i: nat, j: nat, name: string): Option<nat>
    decreases |bufs| - i, if i < |bufs| then |bufs[i]| - j else 0
  {
    if i >= |bufs| then None
    else if j >= |bufs[i]| then FindFrom(bufs, i + 1, 0, name)
    else if bufs[i][j].inode == 0 then None
    else if bufs[i][j].name == name then Some(bufs[i][j].inode)
    else FindFrom(bufs, i, j + 1, name)
  }

  /** The number that the directory at `p` has under `name`. */
  function Lookup(vol: Volume, dirs: map<nat, seq<Entry>>, p: Pos, name: string): Option<nat> {
    if p !in vol.inodes || !vol.inodes[p].isDir then None
    else if exists b | b in vol.inodes[p].blocks :: b !in dirs then None
    else FindFrom(ReadDir(dirs, vol.inodes[p].blocks), 0, 0, name)
  }

  /** The inode that `path` leads to from the directory at `p`, if any. */
  function Resolve(vol: Volume, ipg: nat, dirs: map<nat, seq<Entry>>, p: Pos, path: seq<string>):
    Option<Pos>
    requires ipg > 0
    decreases |path|
  {
    if path == [] then Some(p)
    else
      var found := Lookup(vol, dirs, p, path[0]);
      if found == None then None else Resolve(vol, ipg, dirs, PosOf(ipg, found.value), path[1..])
  }
}
