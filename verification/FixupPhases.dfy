/** The two directory passes of the renumbering tool survive a stop at any write.

    Each pass takes every live entry from one form to another: marking takes the old number to the
    marked one, updating takes the marked one to the new one. `PhaseInv` says what holds on the disk
    at any moment of a pass, started and stopped any number of times. */
module FixupPhases {
  import opened Common
  import opened FixupModel

  /** A filesystem at the start of the work. `rank` holds its directories, numbered so that a
      subdirectory has a smaller number than its parent. */
  datatype Ctx = Ctx(vol: Volume, ipg: nat, npg: nat, dirs0: map<nat, seq<Entry>>,
                     rank: map<Pos, nat>) {

    function Root(): Pos
      requires ipg > 0
    {
      PosOf(ipg, ROOT_INO)
    }

    /** Entry `j` of block `i` of directory `p` exists. */
    ghost predicate Slot(p: Pos, i: int, j: int) {
      && p in rank && p in vol.inodes
      && 0 <= i < |vol.inodes[p].blocks| && vol.inodes[p].blocks[i] in dirs0
      && 0 <= j < |dirs0[vol.inodes[p].blocks[i]]|
    }

    ghost function Block(p: Pos, i: int): nat
      requires p in vol.inodes && 0 <= i < |vol.inodes[p].blocks|
    {
      vol.inodes[p].blocks[i]
    }

    ghost function Orig(p: Pos, i: int, j: int): Entry
      requires Slot(p, i, j)
    {
      dirs0[Block(p, i)][j]
    }

    /** The walk of a directory reaches this entry. */
    ghost predicate Live(p: Pos, i: int, j: int) {
      && Slot(p, i, j)
      && forall i', j' :: Slot(p, i', j') && AtOrBefore(i', j', i, j) ==> Orig(p, i', j').inode != 0
    }

    ghost function Target(p: Pos, i: int, j: int): Pos
      requires ipg > 0 && Slot(p, i, j)
    {
      PosOf(ipg, Orig(p, i, j).inode)
    }

    /** This live entry names a subdirectory that the tool descends into. */
    ghost predicate IsChild(p: Pos, i: int, j: int)
      requires ipg > 0
    {
      && Live(p, i, j)
      && Orig(p, i, j).fileType != Other && !IsDots(Orig(p, i, j).name)
      && Target(p, i, j) in vol.inodes && vol.inodes[Target(p, i, j)].isDir
    }

    ghost predicate Shape() {
      && 2 <= ipg <= npg && vol.groups * npg < HIGH_BIT
      && Root() in rank
      && (forall p | p in rank :: p in vol.inodes && vol.inodes[p].isDir)
      && (forall p, i | p in rank && p in vol.inodes && 0 <= i < |vol.inodes[p].blocks| ::
            Block(p, i) in dirs0)
    }

    ghost predicate BlocksDistinct() {
      forall p, i, q, k | p in rank && p in vol.inodes && q in rank && q in vol.inodes
        && 0 <= i < |vol.inodes[p].blocks| && 0 <= k < |vol.inodes[q].blocks| ::
        Block(p, i) == Block(q, k) ==> p == q && i == k
    }

    ghost predicate NumbersValid() {
      forall p, i, j | Live(p, i, j) :: 1 <= Orig(p, i, j).inode <= vol.groups * ipg
    }

    /** Subdirectories are known and lie below their parent. */
    ghost predicate Acyclic()
      requires ipg > 0
    {
      forall p, i, j | IsChild(p, i, j) ::
        Target(p, i, j) in rank && rank[Target(p, i, j)] < rank[p]
    }

    /** Every directory but the root is named by an entry of another one. */
    ghost predicate Reachable()
      requires ipg > 0
    {
      forall q | q in rank && q != Root() :: exists p, i, j :: IsChild(p, i, j) && Target(p, i, j) == q
    }

    /** What the tool needs of a filesystem before it starts. */
    ghost predicate Tree() {
      Shape() && BlocksDistinct() && NumbersValid() && Acyclic() && Reachable()
    }

    /** What the sanity pass looks for in directory `p`: an entry of unknown type has an inode, and
        an entry typed as a directory names one. */
    ghost predicate SoundDir(p: Pos)
      requires ipg > 0
    {
      forall i, j | Live(p, i, j) ::
        && (Orig(p, i, j).fileType == Unknown ==> Target(p, i, j) in vol.inodes)
        && (Orig(p, i, j).fileType == Directory && !IsDots(Orig(p, i, j).name) ==>
              Target(p, i, j) in vol.inodes && vol.inodes[Target(p, i, j)].isDir)
    }

    ghost predicate Sound()
      requires ipg > 0
    {
      forall p | p in rank :: SoundDir(p)
    }

    /** The form a pass finds an entry in, and the form it leaves it in. */
    function Before(mode: Mode, e: Entry): Entry {
      if mode == Update then e.(inode := SetMark(e.inode)) else e
    }

    function After(mode: Mode, e: Entry): Entry
      requires ipg > 0
    {
      if mode == Update then e.(inode := ComputeNewInum(ipg, npg, e.inode))
      else e.(inode := SetMark(e.inode))
    }

    /** The blocks of `dirs` have the shape of the original ones. */
    ghost predicate SameShape(dirs: map<nat, seq<Entry>>) {
      dirs.Keys == dirs0.Keys && forall b | b in dirs0 :: |dirs[b]| == |dirs0[b]|
    }

    ghost function At(dirs: map<nat, seq<Entry>>, p: Pos, i: int, j: int): Entry
      requires SameShape(dirs) && Slot(p, i, j)
    {
      dirs[Block(p, i)][j]
    }

    ghost predicate IsAfter(mode: Mode, dirs: map<nat, seq<Entry>>, p: Pos, i: int, j: int)
      requires ipg > 0 && SameShape(dirs) && Slot(p, i, j)
    {
      At(dirs, p, i, j) == After(mode, Orig(p, i, j))
    }

    /** The pass has finished with directory `p` itself. */
    ghost predicate AllAfter(mode: Mode, dirs: map<nat, seq<Entry>>, p: Pos)
      requires ipg > 0 && SameShape(dirs)
    {
      forall i, j | Live(p, i, j) :: IsAfter(mode, dirs, p, i, j)
    }

    ghost predicate SlotsOk(mode: Mode, dirs: map<nat, seq<Entry>>)
      requires ipg > 0 && SameShape(dirs)
    {
      forall p, i, j | Slot(p, i, j) ::
        if Live(p, i, j)
        then IsAfter(mode, dirs, p, i, j) || At(dirs, p, i, j) == Before(mode, Orig(p, i, j))
        else At(dirs, p, i, j) == Orig(p, i, j)
    }

    ghost predicate OwnedBlock(b: nat) {
      exists p, i :: p in rank && p in vol.inodes && 0 <= i < |vol.inodes[p].blocks| && Block(p, i) == b
    }

    ghost predicate OthersKept(dirs: map<nat, seq<Entry>>)
      requires SameShape(dirs)
    {
      forall b | b in dirs0 && !OwnedBlock(b) :: dirs[b] == dirs0[b]
    }

    /** The entry of a subdirectory has reached its final form only when the subdirectory has. */
    ghost predicate ChildrenFirst(mode: Mode, dirs: map<nat, seq<Entry>>)
      requires Tree() && SameShape(dirs)
    {
      forall p, i, j | IsChild(p, i, j) && IsAfter(mode, dirs, p, i, j) ::
        AllAfter(mode, dirs, Target(p, i, j))
    }

    /** What holds on the disk at every moment of a pass. */
    ghost predicate PhaseInv(mode: Mode, dirs: map<nat, seq<Entry>>)
      requires Tree()
    {
      SameShape(dirs) && SlotsOk(mode, dirs) && OthersKept(dirs) && ChildrenFirst(mode, dirs)
    }

    /** Entries that had their final form still have it. */
    ghost predicate Progress(mode: Mode, dirs: map<nat, seq<Entry>>, dirs': map<nat, seq<Entry>>)
      requires ipg > 0 && SameShape(dirs) && SameShape(dirs')
    {
      forall p, i, j | Live(p, i, j) && IsAfter(mode, dirs, p, i, j) :: IsAfter(mode, dirs', p, i, j)
    }

    /** The pass is over: every live entry has its final form and nothing else changed. */
    ghost predicate PhaseDone(mode: Mode, dirs: map<nat, seq<Entry>>)
      requires Tree()
    {
      && PhaseInv(mode, dirs)
      && forall p | p in rank :: AllAfter(mode, dirs, p)
    }
  }

  predicate AtOrBefore(i': int, j': int, i: int, j: int) { i' < i || (i' == i && j' <= j) }

  predicate Precedes(i': int, j': int, i: int, j: int) { i' < i || (i' == i && j' < j) }

  // ----- The renumbering itself

  lemma PlaceOf(ipg: nat, inum: nat)
    requires ipg > 0 && 1 <= inum <= TWO_32
    ensures PosOf(ipg, inum) == Pos((inum - 1) / ipg, (inum - 1) % ipg)
  {
    assert (inum + TWO_32 - 1) % TWO_32 == inum - 1;
  }

  lemma GroupInRange(ipg: nat, groups: nat, z: nat)
    requires ipg > 0 && z < groups * ipg
    ensures z / ipg < groups
  {
    assert z >= (z / ipg) * ipg;
    if z / ipg >= groups {
      MulMonotone(groups, z / ipg, ipg);
    }
  }

  lemma NewInumInRange(g: nat, o: nat, groups: nat, npg: nat)
    requires g < groups && o < npg
    ensures g * npg + o + 1 <= groups * npg
  {
    MulMonotone(g + 1, groups, npg);
    assert (g + 1) * npg == g * npg + npg;
  }

  /** There are no more numbers before than after. */
  lemma OldInumsFit(ipg: nat, npg: nat, groups: nat)
    requires ipg <= npg
    ensures groups * ipg <= groups * npg
  {
    MulCommute(groups, ipg);
    MulCommute(groups, npg);
    MulMonotone(ipg, npg, groups);
  }

  /** The new number puts an inode in the same place under the new group size. */
  lemma NewInumKeepsPlace(ipg: nat, npg: nat, groups: nat, inum: nat)
    requires 1 <= ipg <= npg && groups * npg < HIGH_BIT
    requires 1 <= inum <= groups * ipg
    ensures 1 <= ComputeNewInum(ipg, npg, inum) <= groups * npg
    ensures PosOf(npg, ComputeNewInum(ipg, npg, inum)) == PosOf(ipg, inum)
    ensures PosOf(ipg, inum).group < groups && PosOf(ipg, inum).offset < ipg
    ensures npg == ipg ==> ComputeNewInum(ipg, npg, inum) == inum
  {
    hide PosOf;
    OldInumsFit(ipg, npg, groups);
    PlaceOf(ipg, inum);
    GroupInRange(ipg, groups, inum - 1);
    var g, o := (inum - 1) / ipg, (inum - 1) % ipg;
    NewInumInRange(g, o, groups, npg);
    var n := g * npg + o + 1;
    assert ComputeNewInum(ipg, npg, inum) == n % TWO_32 == n;
    PlaceOf(npg, n);
    DivModUnique(g, o, npg);
  }

  lemma MulCommute(a: nat, b: nat)
    ensures a * b == b * a
  {
  }

  /** Renumbering is injective on the inodes of the filesystem. */
  lemma NewInumInjective(ipg: nat, npg: nat, groups: nat, a: nat, b: nat)
    requires 1 <= ipg <= npg && groups * npg < HIGH_BIT
    requires 1 <= a <= groups * ipg && 1 <= b <= groups * ipg
    requires ComputeNewInum(ipg, npg, a) == ComputeNewInum(ipg, npg, b)
    ensures a == b
  {
    NewInumKeepsPlace(ipg, npg, groups, a);
    NewInumKeepsPlace(ipg, npg, groups, b);
    PlaceDeterminesInum(ipg, groups, npg, a);
    PlaceDeterminesInum(ipg, groups, npg, b);
  }

  lemma PlaceDeterminesInum(ipg: nat, groups: nat, npg: nat, a: nat)
    requires 1 <= ipg <= npg && groups * npg < HIGH_BIT && 1 <= a <= groups * ipg
    ensures a == PosOf(ipg, a).group * ipg + PosOf(ipg, a).offset + 1
  {
    OldInumsFit(ipg, npg, groups);
    PlaceOf(ipg, a);
  }

  /** The two forms of a pass differ, are not 0, keep the target, and lead one to the other. */
  lemma Forms(c: Ctx, mode: Mode, p: Pos, i: int, j: int, e: Entry)
    requires c.Tree() && mode != Sanity && c.Live(p, i, j)
    requires e == c.After(mode, c.Orig(p, i, j)) || e == c.Before(mode, c.Orig(p, i, j))
    ensures e.inode != 0
    ensures e.name == c.Orig(p, i, j).name && e.fileType == c.Orig(p, i, j).fileType
    ensures ProcessEntry(mode, c.ipg, c.npg, e) == c.After(mode, c.Orig(p, i, j))
    ensures mode == Update ==> (IsMarked(e.inode) <==> e != c.After(mode, c.Orig(p, i, j)))
    ensures mode == Mark || IsMarked(e.inode) ==> ClearMark(e.inode) == c.Orig(p, i, j).inode
    ensures mode == Update && e == c.After(mode, c.Orig(p, i, j)) ==>
              PosOf(c.npg, e.inode) == c.Target(p, i, j)
  {
    var n := c.Orig(p, i, j).inode;
    OldInumsFit(c.ipg, c.npg, c.vol.groups);
    NewInumKeepsPlace(c.ipg, c.npg, c.vol.groups, n);
    MarkForms(n);
  }

  lemma MarkForms(n: nat)
    requires n < HIGH_BIT
    ensures SetMark(n) == n + HIGH_BIT && IsMarked(SetMark(n)) && SetMark(SetMark(n)) == SetMark(n)
    ensures ClearMark(SetMark(n)) == n && ClearMark(n) == n
  {
  }

  // ----- Writing a directory back

  /** The buffer of directory `p` in the middle of its walk. */
  ghost predicate BufOk(c: Ctx, mode: Mode, p: Pos, bufs: seq<seq<Entry>>, dirs: map<nat, seq<Entry>>)
    requires c.Tree() && c.SameShape(dirs) && p in c.rank
  {
    && |bufs| == |c.vol.inodes[p].blocks|
    && (forall i | 0 <= i < |bufs| :: |bufs[i]| == |c.dirs0[c.Block(p, i)]|)
    && (forall i, j | c.Slot(p, i, j) ::
          if c.Live(p, i, j)
          then
            || bufs[i][j] == c.Before(mode, c.Orig(p, i, j))
            || (bufs[i][j] == c.After(mode, c.Orig(p, i, j))
                && (c.IsChild(p, i, j) ==> c.AllAfter(mode, dirs, c.Target(p, i, j))))
          else bufs[i][j] == c.Orig(p, i, j))
  }

  ghost predicate BufDone(c: Ctx, mode: Mode, p: Pos, bufs: seq<seq<Entry>>, dirs: map<nat, seq<Entry>>)
    requires c.Tree() && c.SameShape(dirs) && p in c.rank
  {
    && BufOk(c, mode, p, bufs, dirs)
    && forall i, j | c.Live(p, i, j) ::
         && bufs[i][j] == c.After(mode, c.Orig(p, i, j))
         && (c.IsChild(p, i, j) ==> c.AllAfter(mode, dirs, c.Target(p, i, j)))
  }

  /** Progress carries what the buffer knows about subdirectories forward. */
  lemma ProgressKeepsAllAfter(c: Ctx, mode: Mode, dirs: map<nat, seq<Entry>>,
                              dirs': map<nat, seq<Entry>>, p: Pos)
    requires c.Tree() && c.SameShape(dirs) && c.SameShape(dirs')
    requires c.Progress(mode, dirs, dirs') && c.AllAfter(mode, dirs, p)
    ensures c.AllAfter(mode, dirs', p)
  {
  }

  lemma ProgressKeepsBuf(c: Ctx, mode: Mode, p: Pos, bufs: seq<seq<Entry>>,
                         dirs: map<nat, seq<Entry>>, dirs': map<nat, seq<Entry>>)
    requires c.Tree() && c.SameShape(dirs) && c.SameShape(dirs') && p in c.rank
    requires c.Progress(mode, dirs, dirs')
    ensures BufOk(c, mode, p, bufs, dirs) ==> BufOk(c, mode, p, bufs, dirs')
    ensures BufDone(c, mode, p, bufs, dirs) ==> BufDone(c, mode, p, bufs, dirs')
  {
    forall q | c.AllAfter(mode, dirs, q) ensures c.AllAfter(mode, dirs', q) {
      ProgressKeepsAllAfter(c, mode, dirs, dirs', q);
    }
  }

  lemma WriteOneSlot(c: Ctx, p: Pos, dirs: map<nat, seq<Entry>>, i: nat, content: seq<Entry>,
                     dirs': map<nat, seq<Entry>>)
    requires c.Shape() && c.BlocksDistinct() && p in c.rank && c.SameShape(dirs)
    requires i < |c.vol.inodes[p].blocks| && |content| == |c.dirs0[c.Block(p, i)]|
    requires dirs' == dirs[c.Block(p, i) := content]
    ensures c.SameShape(dirs')
    ensures forall q, k, j | c.Slot(q, k, j) ::
              c.At(dirs', q, k, j) == if q == p && k == i then content[j] else c.At(dirs, q, k, j)
    ensures c.OthersKept(dirs) ==> c.OthersKept(dirs')
  {
    assert c.OwnedBlock(c.Block(p, i));
  }

  lemma WriteKeepsChildrenFirst(c: Ctx, mode: Mode, p: Pos, bufs: seq<seq<Entry>>,
                                dirs: map<nat, seq<Entry>>, i: nat, dirs': map<nat, seq<Entry>>)
    requires c.Tree() && p in c.rank && c.SameShape(dirs) && c.SameShape(dirs')
    requires c.ChildrenFirst(mode, dirs) && BufDone(c, mode, p, bufs, dirs)
    requires c.Progress(mode, dirs, dirs')
    requires forall q, k, j | c.Slot(q, k, j) && !(q == p && k == i) ::
               c.At(dirs', q, k, j) == c.At(dirs, q, k, j)
    ensures c.ChildrenFirst(mode, dirs')
  {
    forall q, k, j | c.IsChild(q, k, j) && c.IsAfter(mode, dirs', q, k, j)
      ensures c.AllAfter(mode, dirs', c.Target(q, k, j))
    {
      assert c.Live(q, k, j) && c.Slot(q, k, j);
      if q != p || k != i {
        assert c.IsAfter(mode, dirs, q, k, j);
      }
      assert c.AllAfter(mode, dirs, c.Target(q, k, j));
      ProgressKeepsAllAfter(c, mode, dirs, dirs', c.Target(q, k, j));
    }
  }

  /** One block of a finished buffer reaches the disk. */
  lemma WriteOneBlock(c: Ctx, mode: Mode, p: Pos, bufs: seq<seq<Entry>>, dirs: map<nat, seq<Entry>>,
                      i: nat, dirs': map<nat, seq<Entry>>)
    requires c.Tree() && p in c.rank && c.PhaseInv(mode, dirs) && BufDone(c, mode, p, bufs, dirs)
    requires i < |bufs| && dirs' == dirs[c.Block(p, i) := bufs[i]]
    ensures c.PhaseInv(mode, dirs') && c.Progress(mode, dirs, dirs')
    ensures forall k, j | c.Live(p, k, j) && (k == i || c.IsAfter(mode, dirs, p, k, j)) ::
              c.IsAfter(mode, dirs', p, k, j)
  {
    WriteOneSlot(c, p, dirs, i, bufs[i], dirs');
    assert c.Progress(mode, dirs, dirs') by {
      forall q, k, j | c.Live(q, k, j) && c.IsAfter(mode, dirs, q, k, j)
        ensures c.IsAfter(mode, dirs', q, k, j)
      {
        assert c.Slot(q, k, j);
      }
    }
    WriteKeepsChildrenFirst(c, mode, p, bufs, dirs, i, dirs');
    assert c.SlotsOk(mode, dirs') by {
      forall q, k, j | c.Slot(q, k, j)
        ensures if c.Live(q, k, j)
                then c.IsAfter(mode, dirs', q, k, j) || c.At(dirs', q, k, j) == c.Before(mode, c.Orig(q, k, j))
                else c.At(dirs', q, k, j) == c.Orig(q, k, j)
      {
        assert q == p && k == i ==> c.At(dirs', q, k, j) == bufs[i][j];
      }
    }
  }

  lemma ProgressTransitive(c: Ctx, mode: Mode, a: map<nat, seq<Entry>>, b: map<nat, seq<Entry>>,
                           d: map<nat, seq<Entry>>)
    requires c.Tree() && c.SameShape(a) && c.SameShape(b) && c.SameShape(d)
    requires c.Progress(mode, a, b) && c.Progress(mode, b, d)
    ensures c.Progress(mode, a, d)
  {
  }

  /** The result of a step of a pass: nothing but directory blocks changed, the invariant holds, and
      a stop is reported only when the writes have run out. */
  ghost predicate StepOk(c: Ctx, mode: Mode, r: Run, r': Run)
    requires c.Tree() && c.PhaseInv(mode, r.disk.dirs)
  {
    && r'.outcome != Failed && r'.budget <= r.budget
    && (r'.outcome == Stopped ==> r'.budget == 0)
    && r'.disk == r.disk.(dirs := r'.disk.dirs)
    && c.PhaseInv(mode, r'.disk.dirs)
    && c.Progress(mode, r.disk.dirs, r'.disk.dirs)
  }

  lemma {:induction false} WriteDirKeepsPhase(c: Ctx, mode: Mode, p: Pos, bufs: seq<seq<Entry>>, r: Run, i: nat)
    requires c.Tree() && p in c.rank && c.PhaseInv(mode, r.disk.dirs)
    requires BufDone(c, mode, p, bufs, r.disk.dirs) && r.outcome == Ok
    requires i <= |bufs|
    requires forall k, j | c.Live(p, k, j) && k < i :: c.IsAfter(mode, r.disk.dirs, p, k, j)
    ensures var r' := WriteDir(r, c.vol.inodes[p].blocks, bufs, i);
            StepOk(c, mode, r, r') && (r'.outcome == Ok ==> c.AllAfter(mode, r'.disk.dirs, p))
    decreases |bufs| - i
  {
    var blocks := c.vol.inodes[p].blocks;
    if i < |blocks| && r.budget > 0 {
      var r1 := WriteDirBlock(r, blocks[i], bufs[i]);
      WriteOneBlock(c, mode, p, bufs, r.disk.dirs, i, r1.disk.dirs);
      ProgressKeepsBuf(c, mode, p, bufs, r.disk.dirs, r1.disk.dirs);
      WriteDirKeepsPhase(c, mode, p, bufs, r1, i + 1);
      var r' := WriteDir(r1, blocks, bufs, i + 1);
      ProgressTransitive(c, mode, r.disk.dirs, r1.disk.dirs, r'.disk.dirs);
    }
  }

  // ----- The walk

  /** Everything before entry `j` of block `i` is live and done. */
  ghost predicate DoneUpTo(c: Ctx, mode: Mode, p: Pos, bufs: seq<seq<Entry>>, dirs: map<nat, seq<Entry>>,
                           i: int, j: int)
    requires c.Tree() && c.SameShape(dirs) && p in c.rank && BufOk(c, mode, p, bufs, dirs)
  {
    forall i', j' | c.Slot(p, i', j') && Precedes(i', j', i, j) ::
      && c.Live(p, i', j')
      && bufs[i'][j'] == c.After(mode, c.Orig(p, i', j'))
      && (c.IsChild(p, i', j') ==> c.AllAfter(mode, dirs, c.Target(p, i', j')))
  }

  /** The walk has come to entry `j` of block `i`: that entry is live unless its inode is 0. */
  lemma NextIsLive(c: Ctx, p: Pos, i: int, j: int)
    requires c.Tree() && c.Slot(p, i, j)
    requires forall i', j' | c.Slot(p, i', j') && Precedes(i', j', i, j) :: c.Live(p, i', j')
    ensures c.Live(p, i, j) <==> c.Orig(p, i, j).inode != 0
  {
    forall i', j' | c.Slot(p, i', j') && AtOrBefore(i', j', i, j) && !(i' == i && j' == j)
      ensures c.Orig(p, i', j').inode != 0
    {
      assert Precedes(i', j', i, j);
      assert c.Live(p, i', j');
    }
    assert AtOrBefore(i, j, i, j);
  }

  lemma ZeroEndsDirectory(c: Ctx, mode: Mode, p: Pos, bufs: seq<seq<Entry>>, dirs: map<nat, seq<Entry>>,
                          i: int, j: int)
    requires c.Tree() && c.SameShape(dirs) && p in c.rank && BufOk(c, mode, p, bufs, dirs)
    requires DoneUpTo(c, mode, p, bufs, dirs, i, j)
    requires 0 <= i <= |bufs| && 0 <= j
    requires i == |bufs| || (c.Slot(p, i, j) && c.Orig(p, i, j).inode == 0)
    ensures BufDone(c, mode, p, bufs, dirs)
  {
    forall i', j' | c.Live(p, i', j')
      ensures Precedes(i', j', i, j)
    {
      assert Precedes(i', j', i, j) || AtOrBefore(i, j, i', j');
    }
  }

  /** One live entry of the buffer is processed. */
  lemma ProcessOne(c: Ctx, mode: Mode, p: Pos, bufs: seq<seq<Entry>>, dirs: map<nat, seq<Entry>>,
                   i: int, j: int, bufs': seq<seq<Entry>>)
    requires c.Tree() && mode != Sanity && c.SameShape(dirs) && p in c.rank
    requires BufOk(c, mode, p, bufs, dirs) && DoneUpTo(c, mode, p, bufs, dirs, i, j)
    requires c.Live(p, i, j) && (c.IsChild(p, i, j) ==> c.AllAfter(mode, dirs, c.Target(p, i, j)))
    requires bufs' == bufs[i := bufs[i][j := c.After(mode, c.Orig(p, i, j))]]
    ensures BufOk(c, mode, p, bufs', dirs) && DoneUpTo(c, mode, p, bufs', dirs, i, j + 1)
  {
    forall i', j' | c.Slot(p, i', j')
      ensures bufs'[i'][j'] == if i' == i && j' == j then c.After(mode, c.Orig(p, i, j)) else bufs[i'][j']
    {
    }
    forall i', j' | c.Slot(p, i', j') && Precedes(i', j', i, j + 1)
      ensures Precedes(i', j', i, j) || (i' == i && j' == j)
    {
    }
  }

  lemma ProgressKeepsDone(c: Ctx, mode: Mode, p: Pos, bufs: seq<seq<Entry>>,
                          dirs: map<nat, seq<Entry>>, dirs': map<nat, seq<Entry>>, i: int, j: int)
    requires c.Tree() && c.SameShape(dirs) && c.SameShape(dirs') && p in c.rank
    requires c.Progress(mode, dirs, dirs')
    requires BufOk(c, mode, p, bufs, dirs) && DoneUpTo(c, mode, p, bufs, dirs, i, j)
    ensures BufOk(c, mode, p, bufs, dirs') && DoneUpTo(c, mode, p, bufs, dirs', i, j)
  {
    ProgressKeepsBuf(c, mode, p, bufs, dirs, dirs');
    forall q | c.AllAfter(mode, dirs, q) ensures c.AllAfter(mode, dirs', q) {
      ProgressKeepsAllAfter(c, mode, dirs, dirs', q);
    }
  }

  /** Whether the walk descends at a live entry: always at a subdirectory while marking; while
      updating, unless the entry is already new, and then the subdirectory is done. */
  lemma DescendsAtChildren(c: Ctx, mode: Mode, p: Pos, i: int, j: int, e: Entry)
    requires c.Tree() && c.Sound() && mode != Sanity && c.Live(p, i, j)
    requires e == c.After(mode, c.Orig(p, i, j)) || e == c.Before(mode, c.Orig(p, i, j))
    ensures IsEntryDir(c.vol, c.ipg, e, mode).Some?
    ensures var descends := Descends(IsEntryDir(c.vol, c.ipg, e, mode).value, e, mode);
            && (descends ==> c.IsChild(p, i, j) && PosOf(c.ipg, ClearMark(e.inode)) == c.Target(p, i, j))
            && (!descends && c.IsChild(p, i, j) ==>
                  e == c.After(mode, c.Orig(p, i, j)) != c.Before(mode, c.Orig(p, i, j)))
  {
    Forms(c, mode, p, i, j, e);
    Forms(c, mode, p, i, j, c.Before(mode, c.Orig(p, i, j)));
    assert c.SoundDir(p);
  }

  lemma {:induction false} WalkKeepsPhase(c: Ctx, mode: Mode, r: Run, p: Pos, bufs: seq<seq<Entry>>,
                                          i: nat, j: nat, depth: nat)
    requires c.Tree() && c.Sound() && mode != Sanity && r.outcome == Ok
    requires p in c.rank && depth > c.rank[p] && c.PhaseInv(mode, r.disk.dirs)
    requires BufOk(c, mode, p, bufs, r.disk.dirs) && DoneUpTo(c, mode, p, bufs, r.disk.dirs, i, j)
    requires i <= |bufs|
    ensures var (r', bufs') := Walk(c.vol, c.ipg, c.npg, r, bufs, i, j, mode, depth);
            && StepOk(c, mode, r, r')
            && (r'.outcome == Ok ==> BufDone(c, mode, p, bufs', r'.disk.dirs))
    decreases depth, 0, |bufs| - i, if i < |bufs| then |bufs[i]| - j else 0
  {
    if i >= |bufs| {
      ZeroEndsDirectory(c, mode, p, bufs, r.disk.dirs, i, j);
    } else if j >= |bufs[i]| {
      forall i', j' | c.Slot(p, i', j') && Precedes(i', j', i + 1, 0) ensures Precedes(i', j', i, j) {
      }
      WalkKeepsPhase(c, mode, r, p, bufs, i + 1, 0, depth);
    } else {
      var e := bufs[i][j];
      assert c.Slot(p, i, j);
      NextIsLive(c, p, i, j);
      if c.Live(p, i, j) {
        WalkEntryKeepsPhase(c, mode, r, p, bufs, i, j, depth);
      } else {
        ZeroEndsDirectory(c, mode, p, bufs, r.disk.dirs, i, j);
      }
    }
  }

  /** What the walk does at an entry before it goes on: descend, or nothing. */
  function Descend(vol: Volume, ipg: nat, npg: nat, r: Run, e: Entry, mode: Mode, depth: nat): Run
    requires ipg > 0 && depth > 0 && IsEntryDir(vol, ipg, e, mode).Some?
  {
    if Descends(IsEntryDir(vol, ipg, e, mode).value, e, mode)
    then RecurseDir(vol, ipg, npg, r, PosOf(ipg, ClearMark(e.inode)), mode, depth - 1)
    else r
  }

  lemma WalkUnfold(vol: Volume, ipg: nat, npg: nat, r: Run, bufs: seq<seq<Entry>>, i: nat, j: nat,
                   mode: Mode, depth: nat)
    requires ipg > 0 && depth > 0 && i < |bufs| && j < |bufs[i]| && bufs[i][j].inode != 0
    requires IsEntryDir(vol, ipg, bufs[i][j], mode).Some?
    ensures var r1 := Descend(vol, ipg, npg, r, bufs[i][j], mode, depth);
            var bufs1 := bufs[i := bufs[i][j := ProcessEntry(mode, ipg, npg, bufs[i][j])]];
            Walk(vol, ipg, npg, r, bufs, i, j, mode, depth) ==
            if r1.outcome != Ok then (r1, bufs)
            else Walk(vol, ipg, npg, r1, bufs1, i, j + 1, mode, depth)
  {
  }

  lemma ChildBelow(c: Ctx, p: Pos, i: int, j: int)
    requires c.Tree() && c.IsChild(p, i, j)
    ensures c.Target(p, i, j) in c.rank && c.rank[c.Target(p, i, j)] < c.rank[p]
  {
  }

  lemma StepReflexive(c: Ctx, mode: Mode, r: Run)
    requires c.Tree() && c.PhaseInv(mode, r.disk.dirs) && r.outcome == Ok
    ensures StepOk(c, mode, r, r)
  {
  }

  lemma {:induction false} DescendKeepsPhase(c: Ctx, mode: Mode, r: Run, p: Pos, e: Entry,
                                             i: nat, j: nat, depth: nat) returns (r1: Run)
    requires c.Tree() && c.Sound() && mode != Sanity && r.outcome == Ok
    requires p in c.rank && depth > c.rank[p] && c.PhaseInv(mode, r.disk.dirs) && c.Live(p, i, j)
    requires || e == c.Before(mode, c.Orig(p, i, j))
             || (e == c.After(mode, c.Orig(p, i, j))
                 && (c.IsChild(p, i, j) ==> c.AllAfter(mode, r.disk.dirs, c.Target(p, i, j))))
    ensures IsEntryDir(c.vol, c.ipg, e, mode).Some?
    ensures r1 == Descend(c.vol, c.ipg, c.npg, r, e, mode, depth)
    ensures StepOk(c, mode, r, r1)
    ensures r1.outcome == Ok && c.IsChild(p, i, j) ==>
              c.AllAfter(mode, r1.disk.dirs, c.Target(p, i, j))
    decreases depth, 0, 0, 0
  {
    hide Walk, RecurseDir, IsEntryDir;
    hide Ctx.Acyclic, Ctx.Reachable, Ctx.BlocksDistinct, Ctx.NumbersValid, Ctx.Sound;
    hide Ctx.SlotsOk, Ctx.OthersKept, Ctx.ChildrenFirst, Ctx.Progress, Ctx.AllAfter;
    DescendsAtChildren(c, mode, p, i, j, e);
    if Descends(IsEntryDir(c.vol, c.ipg, e, mode).value, e, mode) {
      var q := c.Target(p, i, j);
      ChildBelow(c, p, i, j);
      RecurseDirKeepsPhase(c, mode, r, q, depth - 1);
      r1 := RecurseDir(c.vol, c.ipg, c.npg, r, q, mode, depth - 1);
    } else {
      r1 := r;
      StepReflexive(c, mode, r);
    }
  }

  lemma {:induction false} WalkEntryKeepsPhase(c: Ctx, mode: Mode, r: Run, p: Pos, bufs: seq<seq<Entry>>,
                                               i: nat, j: nat, depth: nat)
    requires c.Tree() && c.Sound() && mode != Sanity && r.outcome == Ok
    requires p in c.rank && depth > c.rank[p] && c.PhaseInv(mode, r.disk.dirs)
    requires BufOk(c, mode, p, bufs, r.disk.dirs) && DoneUpTo(c, mode, p, bufs, r.disk.dirs, i, j)
    requires c.Live(p, i, j)
    ensures var (r', bufs') := Walk(c.vol, c.ipg, c.npg, r, bufs, i, j, mode, depth);
            && StepOk(c, mode, r, r')
            && (r'.outcome == Ok ==> BufDone(c, mode, p, bufs', r'.disk.dirs))
    decreases depth, 0, |bufs| - i, |bufs[i]| - j, 0
  {
    hide Walk, RecurseDir, Descend, IsEntryDir, ProcessEntry, DoneUpTo, BufDone;
    hide Ctx.Acyclic, Ctx.Reachable, Ctx.BlocksDistinct, Ctx.NumbersValid, Ctx.Sound;
    hide Ctx.SlotsOk, Ctx.OthersKept, Ctx.ChildrenFirst, Ctx.Progress, Ctx.AllAfter;
    var e := bufs[i][j];
    assert c.Slot(p, i, j);
    Forms(c, mode, p, i, j, e);
    var r1 := DescendKeepsPhase(c, mode, r, p, e, i, j, depth);
    WalkUnfold(c.vol, c.ipg, c.npg, r, bufs, i, j, mode, depth);
    if r1.outcome == Ok {
      ProgressKeepsDone(c, mode, p, bufs, r.disk.dirs, r1.disk.dirs, i, j);
      var bufs1 := bufs[i := bufs[i][j := ProcessEntry(mode, c.ipg, c.npg, e)]];
      ProcessOne(c, mode, p, bufs, r1.disk.dirs, i, j, bufs1);
      WalkKeepsPhase(c, mode, r1, p, bufs1, i, j + 1, depth);
      var r' := Walk(c.vol, c.ipg, c.npg, r1, bufs1, i, j + 1, mode, depth).0;
      ProgressTransitive(c, mode, r.disk.dirs, r1.disk.dirs, r'.disk.dirs);
    }
  }

  /** The buffer of a directory at the start of its walk. */
  lemma BufRead(c: Ctx, mode: Mode, dirs: map<nat, seq<Entry>>, p: Pos)
    requires c.Tree() && p in c.rank && c.PhaseInv(mode, dirs)
    ensures forall b | b in c.vol.inodes[p].blocks :: b in dirs
    ensures BufOk(c, mode, p, ReadDir(dirs, c.vol.inodes[p].blocks), dirs)
  {
    var blocks := c.vol.inodes[p].blocks;
    forall b | b in blocks ensures b in dirs {
      var i :| 0 <= i < |blocks| && blocks[i] == b;
      assert c.Block(p, i) in c.dirs0;
    }
    var bufs := ReadDir(dirs, blocks);
    forall i, j | c.Slot(p, i, j) ensures bufs[i][j] == c.At(dirs, p, i, j) {
    }
  }

  /** A pass over a directory keeps the invariant wherever it stops, never fails on a sound tree, and
      if it is not stopped it leaves the directory in its final form. */
  lemma {:induction false} RecurseDirKeepsPhase(c: Ctx, mode: Mode, r: Run, p: Pos, depth: nat)
    requires c.Tree() && c.Sound() && mode != Sanity && r.outcome == Ok
    requires p in c.rank && depth > c.rank[p] && c.PhaseInv(mode, r.disk.dirs)
    ensures var r' := RecurseDir(c.vol, c.ipg, c.npg, r, p, mode, depth);
            StepOk(c, mode, r, r') && (r'.outcome == Ok ==> c.AllAfter(mode, r'.disk.dirs, p))
    decreases depth, 1, 0, 0
  {
    assert c.ipg > 0 && p in c.vol.inodes && c.vol.inodes[p].isDir && c.SameShape(r.disk.dirs);
    hide Ctx.Tree, Ctx.Sound, Ctx.SlotsOk, Ctx.OthersKept, Ctx.ChildrenFirst, Ctx.Progress, Ctx.AllAfter;
    hide Walk, WriteDir, ReadDir, BufOk, BufDone;
    BufRead(c, mode, r.disk.dirs, p);
    var blocks := c.vol.inodes[p].blocks;
    var bufs := ReadDir(r.disk.dirs, blocks);
    WalkKeepsPhase(c, mode, r, p, bufs, 0, 0, depth);
    var (r1, bufs1) := Walk(c.vol, c.ipg, c.npg, r, bufs, 0, 0, mode, depth);
    if r1.outcome == Ok {
      WriteDirKeepsPhase(c, mode, p, bufs1, r1, 0);
      var r' := WriteDir(r1, blocks, bufs1, 0);
      ProgressTransitive(c, mode, r.disk.dirs, r1.disk.dirs, r'.disk.dirs);
    }
  }
}
