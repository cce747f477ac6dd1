/** The main results about the renumbering tool: whatever the schedule of stops, every entry is
    renumbered exactly once, paths keep their meaning, and the free inode counts grow exactly once
    unless a run was stopped between the primary superblock and the primary descriptors. */
module FixupTheorems {
  import opened Common
  import opened FixupModel
  import opened FixupPhases
  import opened FixupRuns
  import opened FixupSuper

  /** The renumbered filesystem, as a further run of the tool would find it. */
  ghost function Next(c: Ctx, dirs: map<nat, seq<Entry>>): Ctx {
    Ctx(c.vol, c.npg, c.npg, dirs, c.rank)
  }

  // ----- The renumbered filesystem is a filesystem

  lemma NextSlots(c: Ctx, dirs: map<nat, seq<Entry>>, p: Pos, i: int, j: int)
    requires c.Tree() && c.PhaseDone(Update, dirs)
    ensures Next(c, dirs).Slot(p, i, j) <==> c.Slot(p, i, j)
    ensures c.Slot(p, i, j) ==>
              var e, e0 := Next(c, dirs).Orig(p, i, j), c.Orig(p, i, j);
              if c.Live(p, i, j)
              then e == c.After(Update, e0) && e.inode != 0 && e0.inode != 0
              else e == e0
  {
    if c.Live(p, i, j) {
      assert c.AllAfter(Update, dirs, p);
      assert c.IsAfter(Update, dirs, p, i, j);
      Forms(c, Update, p, i, j, c.After(Update, c.Orig(p, i, j)));
      assert AtOrBefore(i, j, i, j);
    }
  }

  /** The first dead entry of a directory is the one whose inode is 0. */
  lemma {:induction false} DeadHasZero(c: Ctx, p: Pos, i: int, j: int) returns (i': int, j': int)
    requires c.Tree() && c.Slot(p, i, j) && !c.Live(p, i, j)
    ensures c.Slot(p, i', j') && AtOrBefore(i', j', i, j)
    ensures c.Orig(p, i', j').inode == 0 && !c.Live(p, i', j')
  {
    i', j' :| c.Slot(p, i', j') && AtOrBefore(i', j', i, j) && c.Orig(p, i', j').inode == 0;
    assert AtOrBefore(i', j', i', j');
  }

  lemma NextLive(c: Ctx, dirs: map<nat, seq<Entry>>, p: Pos, i: int, j: int)
    requires c.Tree() && c.PhaseDone(Update, dirs)
    ensures Next(c, dirs).Live(p, i, j) <==> c.Live(p, i, j)
  {
    var n := Next(c, dirs);
    forall i', j' ensures n.Slot(p, i', j') <==> c.Slot(p, i', j') {
      NextSlots(c, dirs, p, i', j');
    }
    if c.Live(p, i, j) {
      forall i', j' | n.Slot(p, i', j') && AtOrBefore(i', j', i, j) ensures n.Orig(p, i', j').inode != 0 {
        EarlierIsLive(c, p, i, j, i', j');
        NextSlots(c, dirs, p, i', j');
      }
    } else if c.Slot(p, i, j) {
      var i', j' := DeadHasZero(c, p, i, j);
      NextSlots(c, dirs, p, i', j');
      assert n.Slot(p, i', j') && n.Orig(p, i', j').inode == 0;
    }
  }

  lemma EarlierIsLive(c: Ctx, p: Pos, i: int, j: int, i': int, j': int)
    requires c.Tree() && c.Live(p, i, j) && c.Slot(p, i', j') && AtOrBefore(i', j', i, j)
    ensures c.Live(p, i', j')
  {
    forall k, m | c.Slot(p, k, m) && AtOrBefore(k, m, i', j') ensures c.Orig(p, k, m).inode != 0 {
      assert AtOrBefore(k, m, i, j);
    }
  }

  lemma NextEntry(c: Ctx, dirs: map<nat, seq<Entry>>, p: Pos, i: int, j: int)
    requires c.Tree() && c.PhaseDone(Update, dirs) && c.Live(p, i, j)
    ensures var n := Next(c, dirs);
            && n.Live(p, i, j) && n.Target(p, i, j) == c.Target(p, i, j)
            && 1 <= n.Orig(p, i, j).inode <= c.vol.groups * c.npg
            && n.Orig(p, i, j).name == c.Orig(p, i, j).name
            && n.Orig(p, i, j).fileType == c.Orig(p, i, j).fileType
  {
    NextLive(c, dirs, p, i, j);
    NextSlots(c, dirs, p, i, j);
    Forms(c, Update, p, i, j, c.After(Update, c.Orig(p, i, j)));
    NewInumKeepsPlace(c.ipg, c.npg, c.vol.groups, c.Orig(p, i, j).inode);
  }

  lemma NextChild(c: Ctx, dirs: map<nat, seq<Entry>>, p: Pos, i: int, j: int)
    requires c.Tree() && c.PhaseDone(Update, dirs)
    ensures Next(c, dirs).IsChild(p, i, j) <==> c.IsChild(p, i, j)
    ensures c.IsChild(p, i, j) ==> Next(c, dirs).Target(p, i, j) == c.Target(p, i, j)
  {
    NextLive(c, dirs, p, i, j);
    if c.Live(p, i, j) {
      NextEntry(c, dirs, p, i, j);
    }
  }

  lemma NextBlocks(c: Ctx, dirs: map<nat, seq<Entry>>)
    requires c.Tree() && c.SameShape(dirs)
    ensures Next(c, dirs).Shape() && Next(c, dirs).BlocksDistinct()
  {
    var n := Next(c, dirs);
    RootPlace(c);
    forall p, i | p in c.rank && p in c.vol.inodes && 0 <= i < |c.vol.inodes[p].blocks|
      ensures n.Block(p, i) == c.Block(p, i) && n.Block(p, i) in n.dirs0
    {
      assert c.Block(p, i) in c.dirs0;
    }
    forall p, i, q, k | p in n.rank && p in n.vol.inodes && q in n.rank && q in n.vol.inodes
      && 0 <= i < |n.vol.inodes[p].blocks| && 0 <= k < |n.vol.inodes[q].blocks|
      && n.Block(p, i) == n.Block(q, k)
      ensures p == q && i == k
    {
      assert c.Block(p, i) == c.Block(q, k);
    }
  }

  lemma NextIsTree(c: Ctx, dirs: map<nat, seq<Entry>>)
    requires c.Tree() && c.PhaseDone(Update, dirs)
    ensures Next(c, dirs).Tree() && Next(c, dirs).Root() == c.Root()
    ensures c.Sound() ==> Next(c, dirs).Sound()
  {
    var n := Next(c, dirs);
    RootPlace(c);
    NextBlocks(c, dirs);
    forall p, i, j ensures n.Live(p, i, j) <==> c.Live(p, i, j) {
      NextLive(c, dirs, p, i, j);
    }
    forall p, i, j | n.Live(p, i, j) ensures 1 <= n.Orig(p, i, j).inode <= c.vol.groups * c.npg {
      NextEntry(c, dirs, p, i, j);
    }
    forall p, i, j
      ensures n.IsChild(p, i, j) <==> c.IsChild(p, i, j)
      ensures c.IsChild(p, i, j) ==> n.Target(p, i, j) == c.Target(p, i, j)
    {
      NextChild(c, dirs, p, i, j);
    }
    assert n.Acyclic();
    forall q | q in n.rank && q != n.Root() ensures exists p, i, j :: n.IsChild(p, i, j) && n.Target(p, i, j) == q {
      var p, i, j :| c.IsChild(p, i, j) && c.Target(p, i, j) == q;
      assert n.IsChild(p, i, j) && n.Target(p, i, j) == q;
    }
    if c.Sound() {
      NextIsSound(c, dirs);
    }
  }

  lemma NextIsSound(c: Ctx, dirs: map<nat, seq<Entry>>)
    requires c.Tree() && c.PhaseDone(Update, dirs) && c.Sound()
    ensures Next(c, dirs).Sound()
  {
    var n := Next(c, dirs);
    forall p | p in n.rank ensures n.SoundDir(p) {
      assert c.SoundDir(p);
      forall i, j | n.Live(p, i, j)
        ensures n.Orig(p, i, j).fileType == Unknown ==> n.Target(p, i, j) in n.vol.inodes
        ensures n.Orig(p, i, j).fileType == Directory && !IsDots(n.Orig(p, i, j).name) ==>
                  n.Target(p, i, j) in n.vol.inodes && n.vol.inodes[n.Target(p, i, j)].isDir
      {
        NextLive(c, dirs, p, i, j);
        NextEntry(c, dirs, p, i, j);
      }
    }
  }

  /** A finished disk is a disk on which no work has begun, for the renumbered filesystem. */
  lemma FinishedIsStart(c: Ctx, d0: Disk, d: Disk)
    requires Start(c, d0) && Finished(c, d0, d)
    ensures Start(Next(c, d.dirs), d) && Passes(Next(c, d.dirs), d) && Inv(Next(c, d.dirs), d, d)
    ensures Next(c, d.dirs).Root() == c.Root()
  {
    NextIsTree(c, d.dirs);
    NewSizeIsStable(c, d0);
    GrownChecks(c, d0, d.supers[0]);
  }

  /** Renumbering with an unchanged group size changes nothing. */
  lemma IdlePassChangesNothing(c: Ctx, dirs: map<nat, seq<Entry>>)
    requires c.Tree() && c.ipg == c.npg && c.PhaseDone(Update, dirs)
    ensures dirs == c.dirs0
  {
    forall b | b in c.dirs0 ensures dirs[b] == c.dirs0[b] {
      if c.OwnedBlock(b) {
        var p, i :| p in c.rank && p in c.vol.inodes && 0 <= i < |c.vol.inodes[p].blocks| && c.Block(p, i) == b;
        forall j | 0 <= j < |dirs[b]| ensures dirs[b][j] == c.dirs0[b][j] {
          assert c.Slot(p, i, j);
          if c.Live(p, i, j) {
            assert c.AllAfter(Update, dirs, p);
            assert c.IsAfter(Update, dirs, p, i, j);
            NewInumKeepsPlace(c.ipg, c.npg, c.vol.groups, c.Orig(p, i, j).inode);
          } else {
            assert c.At(dirs, p, i, j) == c.Orig(p, i, j);
          }
        }
      }
    }
  }

  /** During further runs the primary copies keep what the first ones left there. */
  lemma LaterPrimary(c: Ctx, d0: Disk, d1: Disk, d: Disk)
    requires Start(c, d0) && Finished(c, d0, d1) && Start(Next(c, d1.dirs), d1)
    requires Inv(Next(c, d1.dirs), d1, d)
    ensures d.descs[0] == d1.descs[0] && Plain(d.supers[0]) == Plain(d1.supers[0])
  {
    var n := Next(c, d1.dirs);
    if BeforeSb(n, d1, d) {
      BeforeSbPrimary(n, d1, d);
    } else {
      CountsSettled(c, d0, d1);
      GrownChecks(c, d0, d1.supers[0]);
    }
  }

  /** A further run that comes to its end leaves a finished disk as it found it. */
  lemma IdleRunChangesNothing(c: Ctx, d0: Disk, d1: Disk, d: Disk)
    requires Start(c, d0) && Finished(c, d0, d1) && Start(Next(c, d1.dirs), d1)
    requires Finished(Next(c, d1.dirs), d1, d)
    ensures Body(d) == Body(d1)
  {
    var n := Next(c, d1.dirs);
    IdlePassChangesNothing(n, d.dirs);
    GrownChecks(c, d0, d1.supers[0]);
    CountsSettled(c, d0, d1);
    assert FinalCounts(n, d1) == d1.descs[0];
    assert FinalSuper(n, d1) == Plain(d1.supers[0]) == FinalSuper(c, d0);
    forall i | 0 <= i < |d.supers|
      ensures d.descs[i] == d1.descs[i] && Body(d).supers[i] == Body(d1).supers[i]
    {
      assert CopyFinal(n, d1, d, i) && CopyFinal(c, d0, d1, i);
    }
    forall i | 0 <= i < |d.bitmaps| ensures d.bitmaps[i] == d1.bitmaps[i] {
      ClearBitsTwice(d1.bitmaps[i], c.npg, c.npg);
    }
  }

  // ----- Schedules of runs

  /** What any number of runs may leave on the disk: a moment of the work on `c`, or a moment of an
      idle repetition on the renumbered filesystem. */
  ghost predicate Good(c: Ctx, d0: Disk, d: Disk)
    requires Start(c, d0)
  {
    Inv(c, d0, d) || exists d1 :: Repeating(c, d0, d1, d)
  }

  ghost predicate Repeating(c: Ctx, d0: Disk, d1: Disk, d: Disk)
    requires Start(c, d0)
  {
    Finished(c, d0, d1) && Start(Next(c, d1.dirs), d1) && Inv(Next(c, d1.dirs), d1, d)
  }

  lemma FinishedRepeats(c: Ctx, d0: Disk, d: Disk)
    requires Start(c, d0) && Finished(c, d0, d)
    ensures Repeating(c, d0, d, d)
  {
    FinishedIsStart(c, d0, d);
  }

  lemma RepeatingRun(c: Ctx, d0: Disk, d1: Disk, d: Disk, budget: nat, depth: nat)
    requires Start(c, d0) && depth > c.rank[c.Root()] && Repeating(c, d0, d1, d)
    ensures var r := Fixup(c.vol, d, budget, depth);
            && Repeating(c, d0, d1, r.disk) && r.outcome != Failed
            && (r.outcome == Stopped ==> r.budget == 0)
            && (r.outcome == Ok ==>
                  Finished(c, d0, r.disk) && r.disk.magic == 0 && !r.disk.supers[0].descSizeLowBit)
  {
    var n := Next(c, d1.dirs);
    FinishedIsStart(c, d0, d1);
    OneRun(n, d1, d, budget, depth);
    var r := Fixup(c.vol, d, budget, depth);
    if Finished(n, d1, r.disk) {
      IdleRunChangesNothing(c, d0, d1, r.disk);
      RestoredIsFinished(c, d0, d1, r.disk);
    }
  }

  lemma RestoredIsFinished(c: Ctx, d0: Disk, d1: Disk, d: Disk)
    requires Start(c, d0) && Finished(c, d0, d1) && GetState(d.magic) == Unset
    requires |d.supers| == |d.descs| == |d1.supers| && Body(d) == Body(d1)
    ensures Finished(c, d0, d)
  {
    BodySupers(d, d1);
    forall i | 0 < i < |d.supers| ensures d.supers[i] == d1.supers[i] {
      assert Body(d).supers[i] == Body(d1).supers[i];
    }
    SameCopies(c, d0, d1, d);
  }

  /** One run from anything earlier runs may have left. */
  lemma GoodRun(c: Ctx, d0: Disk, d: Disk, budget: nat, depth: nat)
    requires Start(c, d0) && depth > c.rank[c.Root()] && Good(c, d0, d)
    ensures var r := Fixup(c.vol, d, budget, depth);
            && Good(c, d0, r.disk)
            && (r.outcome == Failed <==> GetState(d.magic) == Unset && !Passes(c, d0))
            && (r.outcome == Failed ==> r.disk == d)
            && (r.outcome == Stopped ==> r.budget == 0)
            && (r.outcome == Ok ==>
                  Finished(c, d0, r.disk) && r.disk.magic == 0 && !r.disk.supers[0].descSizeLowBit)
  {
    var r := Fixup(c.vol, d, budget, depth);
    if Inv(c, d0, d) {
      OneRun(c, d0, d, budget, depth);
      if Finished(c, d0, r.disk) {
        FinishedRepeats(c, d0, r.disk);
      }
    } else {
      var d1 :| Repeating(c, d0, d1, d);
      RepeatingRun(c, d0, d1, d, budget, depth);
    }
  }

  lemma {:induction false} GoodRuns(c: Ctx, d0: Disk, d: Disk, schedule: seq<nat>, depth: nat)
    requires Start(c, d0) && depth > c.rank[c.Root()] && Good(c, d0, d)
    ensures Good(c, d0, AfterRuns(c.vol, d, schedule, depth))
    decreases |schedule|
  {
    if schedule != [] {
      GoodRun(c, d0, d, schedule[0], depth);
      GoodRuns(c, d0, Fixup(c.vol, d, schedule[0], depth).disk, schedule[1..], depth);
    }
  }

  lemma GoodUnset(c: Ctx, d0: Disk, d: Disk)
    requires Start(c, d0) && Good(c, d0, d) && GetState(d.magic) == Unset
    ensures Inv(c, d0, d) || Finished(c, d0, d)
  {
    if !Inv(c, d0, d) {
      var d1 :| Repeating(c, d0, d1, d);
      RestoredIsFinished(c, d0, d1, d);
    }
  }

  /** Crash safety. After any number of runs, each stopped at any write, a state word that reads
      "unset" means that nothing has changed (but the mount bit) or that the work is done: every live
      entry carries its new number, every other entry and block is as it was, and every copy of the
      superblock is written. */
  lemma UnsetMeansAllOrNothing(c: Ctx, d0: Disk, schedule: seq<nat>, depth: nat)
    requires Start(c, d0) && depth > c.rank[c.Root()]
    ensures var d := AfterRuns(c.vol, d0, schedule, depth);
            GetState(d.magic) == Unset ==>
              || (|d.supers| > 0 && Body(d) == Body(d0))
              || (Finished(c, d0, d) && RenumberedOnce(c, d.dirs))
  {
    assert Inv(c, d0, d0);
    GoodRuns(c, d0, d0, schedule, depth);
    var d := AfterRuns(c.vol, d0, schedule, depth);
    if GetState(d.magic) == Unset {
      GoodUnset(c, d0, d);
      if Finished(c, d0, d) {
        DoneIsRenumberedOnce(c, d.dirs);
      }
    }
  }

  /** The update pass is under way on `d`, over the directories of the start. */
  lemma UpdatingDirs(c: Ctx, d0: Disk, d: Disk)
    requires Start(c, d0) && Good(c, d0, d)
    requires GetState(d.magic) == UpdatingInums && d.supers != [] && d.supers[0].inodesPerGroup == c.ipg
    ensures c.PhaseInv(Update, d.dirs)
  {
    hide Ctx.Tree, Ctx.PhaseInv, Ctx.PhaseDone, Passes, AlignUp;
    if !Inv(c, d0, d) {
      var d1 :| Repeating(c, d0, d1, d);
      LaterPrimary(c, d0, d1, d);
      IdlePassChangesNothing(c, d1.dirs);
      assert Next(c, d1.dirs) == c;
    }
  }

  /** At every stop of the update pass, each live entry is marked with its old number or carries its
      new one, and an unmarked entry of a subdirectory means that the subdirectory is finished. */
  lemma StopDuringUpdate(c: Ctx, d0: Disk, schedule: seq<nat>, depth: nat)
    requires Start(c, d0) && depth > c.rank[c.Root()]
    ensures var d := AfterRuns(c.vol, d0, schedule, depth);
            GetState(d.magic) == UpdatingInums && d.supers != [] && d.supers[0].inodesPerGroup == c.ipg ==>
              && c.SameShape(d.dirs)
              && (forall p, i, j | c.Live(p, i, j) ::
                    if IsMarked(c.At(d.dirs, p, i, j).inode)
                    then ClearMark(c.At(d.dirs, p, i, j).inode) == c.Orig(p, i, j).inode
                    else c.IsAfter(Update, d.dirs, p, i, j))
              && (forall p, i, j | c.IsChild(p, i, j) && !IsMarked(c.At(d.dirs, p, i, j).inode) ::
                    c.AllAfter(Update, d.dirs, c.Target(p, i, j)))
  {
    assert Inv(c, d0, d0);
    GoodRuns(c, d0, d0, schedule, depth);
    var d := AfterRuns(c.vol, d0, schedule, depth);
    if GetState(d.magic) == UpdatingInums && d.supers != [] && d.supers[0].inodesPerGroup == c.ipg {
      UpdatingDirs(c, d0, d);
      forall p, i, j | c.Live(p, i, j)
        ensures if IsMarked(c.At(d.dirs, p, i, j).inode)
                then ClearMark(c.At(d.dirs, p, i, j).inode) == c.Orig(p, i, j).inode
                else c.IsAfter(Update, d.dirs, p, i, j)
      {
        Forms(c, Update, p, i, j, c.At(d.dirs, p, i, j));
      }
    }
  }

  /** Each live entry of a directory has been given its new number once, and nothing else changed. */
  ghost predicate RenumberedOnce(c: Ctx, dirs: map<nat, seq<Entry>>)
    requires c.Tree()
  {
    && c.SameShape(dirs) && c.OthersKept(dirs)
    && forall p, i, j | c.Slot(p, i, j) ::
         c.At(dirs, p, i, j) ==
         if c.Live(p, i, j)
         then c.Orig(p, i, j).(inode := ComputeNewInum(c.ipg, c.npg, c.Orig(p, i, j).inode))
         else c.Orig(p, i, j)
  }

  lemma DoneIsRenumberedOnce(c: Ctx, dirs: map<nat, seq<Entry>>)
    requires c.Tree() && c.PhaseDone(Update, dirs)
    ensures RenumberedOnce(c, dirs)
  {
    forall p, i, j | c.Live(p, i, j) ensures c.IsAfter(Update, dirs, p, i, j) {
      assert c.AllAfter(Update, dirs, p);
    }
  }

  /** After any earlier runs, a run that is not stopped completes the work and leaves a mountable
      filesystem; it fails only on a filesystem the sanity pass rejects, and then the disk is still as
      it was at the start. */
  lemma UnstoppedRunCompletes(c: Ctx, d0: Disk, schedule: seq<nat>, budget: nat, depth: nat)
    requires Start(c, d0) && depth > c.rank[c.Root()]
    ensures var d := AfterRuns(c.vol, d0, schedule, depth);
            var r := Fixup(c.vol, d, budget, depth);
            && (r.outcome == Stopped ==> r.budget == 0)
            && (r.outcome == Failed <==> !Passes(c, d0)) && (r.outcome == Failed ==> r.disk == d0)
            && (r.outcome == Ok ==>
                  && RenumberedOnce(c, r.disk.dirs) && Finished(c, d0, r.disk)
                  && r.disk.magic == 0 && !r.disk.supers[0].descSizeLowBit)
  {
    assert Inv(c, d0, d0);
    var d := AfterRuns(c.vol, d0, schedule, depth);
    if !Passes(c, d0) {
      RejectedRuns(c, d0, schedule, depth);
    }
    GoodRuns(c, d0, d0, schedule, depth);
    GoodRun(c, d0, d, budget, depth);
    var r := Fixup(c.vol, d, budget, depth);
    if r.outcome == Ok {
      DoneIsRenumberedOnce(c, r.disk.dirs);
    }
  }

  lemma {:induction false} RejectedRuns(c: Ctx, d0: Disk, schedule: seq<nat>, depth: nat)
    requires Start(c, d0) && depth > c.rank[c.Root()] && !Passes(c, d0)
    ensures AfterRuns(c.vol, d0, schedule, depth) == d0
    decreases |schedule|
  {
    if schedule != [] {
      assert Inv(c, d0, d0);
      GoodRun(c, d0, d0, schedule[0], depth);
      RejectedRuns(c, d0, schedule[1..], depth);
    }
  }

  // ----- Free inode counts

  /** The primary superblock has the new group size but the descriptors the old counts. */
  ghost predicate CountsMissed(c: Ctx, d0: Disk, d: Disk)
    requires Start(c, d0)
  {
    && |d.supers| > 0 && |d.descs| > 0
    && d.supers[0].inodesPerGroup == c.npg && d.descs[0] != FinalCounts(c, d0)
  }

  /** Growing the groups changes the stored counts: there are some, and the growth is not a multiple
      of what the field can hold. */
  predicate CountsMove(c: Ctx, d0: Disk)
    requires c.ipg <= c.npg && |d0.descs| > 0
  {
    d0.descs[0] != [] && (c.npg - c.ipg) % TWO_16 != 0
  }

  /** A run that starts on `d` with `budget` writes stops between the primary superblock and the
      primary descriptors: the superblock still has the old group size, and one write is left when
      the directories and the bitmaps are done. */
  predicate StopsBetween(c: Ctx, d: Disk, budget: nat, depth: nat)
    requires c.ipg > 0 && c.vol.inodesPerBlock > 0
  {
    && |d.supers| > 0 && d.supers[0].inodesPerGroup == c.ipg < c.npg
    && var r := BeforeSuper(c.vol, c.ipg, c.npg, d, budget, depth);
       r.outcome == Ok && OneWriteLeft(BitmapPass(r, c.ipg, c.npg, 0))
  }

  lemma CountsMoveIff(c: Ctx, d0: Disk)
    requires Start(c, d0)
    ensures FinalCounts(c, d0) != d0.descs[0] <==> CountsMove(c, d0)
  {
    var was, extra := d0.descs[0], c.npg - c.ipg;
    forall k | 0 <= k < |was| ensures (was[k] + extra) % TWO_16 == was[k] <==> extra % TWO_16 == 0 {
    }
    if CountsMove(c, d0) {
      assert FinalCounts(c, d0)[0] != was[0];
    }
  }

  lemma NothingMissedAtStart(c: Ctx, d0: Disk)
    requires Start(c, d0)
    ensures !CountsMissed(c, d0, d0)
  {
    CountsMoveIff(c, d0);
  }

  /** The first run to reach the superblock phase misses the counts exactly by such a stop. */
  lemma FirstRunCounts(c: Ctx, d0: Disk, d: Disk, budget: nat, depth: nat)
    requires Start(c, d0) && depth > c.rank[c.Root()] && BeforeSb(c, d0, d)
    ensures !CountsMissed(c, d0, d)
    ensures |Fixup(c.vol, d, budget, depth).disk.supers| > 0 && |Fixup(c.vol, d, budget, depth).disk.descs| > 0
    ensures CountsMissed(c, d0, Fixup(c.vol, d, budget, depth).disk) <==>
            CountsMove(c, d0) && StopsBetween(c, d, budget, depth)
    ensures StopsBetween(c, d, budget, depth) ==>
              var r := Fixup(c.vol, d, budget, depth);
              && r.outcome == Stopped && r.disk.supers[0].inodesPerGroup == c.npg
              && r.disk.descs[0] == d0.descs[0]
  {
    hide BeforeSuper, UpdateSuperblocks, SetState, Passes, GrownCounts, AlignUp, PosOf;
    hide Ctx.PhaseDone, Ctx.PhaseInv, BitsBetween, BitsFinal;
    CountsMoveIff(c, d0);
    BeforeSbPrimary(c, d0, d);
    BeforeSuperOnWay(c, d0, d, budget, depth);
    var r1 := BeforeSuper(c.vol, c.ipg, c.npg, d, budget, depth);
    if r1.outcome == Ok {
      FirstSuperPhase(c, d0, r1);
    } else if r1.outcome == Stopped {
      BeforeSbPrimary(c, d0, r1.disk);
    }
  }

  /** Missed counts appear only by such a stop, and never disappear. */
  lemma OneRunCounts(c: Ctx, d0: Disk, d: Disk, budget: nat, depth: nat)
    requires Start(c, d0) && depth > c.rank[c.Root()] && Good(c, d0, d)
    ensures CountsMissed(c, d0, Fixup(c.vol, d, budget, depth).disk) <==>
            CountsMissed(c, d0, d) || (CountsMove(c, d0) && StopsBetween(c, d, budget, depth))
  {
    hide BeforeSuper, UpdateSuperblocks, SetState, Passes, GrownCounts, AlignUp, PosOf;
    hide Ctx.PhaseDone, Ctx.PhaseInv, BitsBetween, BitsFinal;
    if BeforeSb(c, d0, d) {
      FirstRunCounts(c, d0, d, budget, depth);
    } else if Inv(c, d0, d) {
      RootPlace(c);
      NewSizeIsStable(c, d0);
      NothingBeforeSuper(c.vol, c.npg, c.npg, d, budget, depth);
      LaterSuperPhase(c, d0, Run(d, budget, Ok));
    } else {
      var d1 :| Repeating(c, d0, d1, d);
      RepeatingRun(c, d0, d1, d, budget, depth);
      LaterPrimary(c, d0, d1, d);
      LaterPrimary(c, d0, d1, Fixup(c.vol, d, budget, depth).disk);
    }
  }

  /** Run `k` of a schedule stops there. */
  predicate StopsAt(c: Ctx, d: Disk, schedule: seq<nat>, k: nat, depth: nat)
    requires c.ipg > 0 && c.vol.inodesPerBlock > 0 && k < |schedule|
  {
    StopsBetween(c, AfterRuns(c.vol, d, schedule[..k], depth), schedule[k], depth)
  }

  /** Leaving out the first run, on the disk it leaves, shifts the others by one. */
  lemma StopsLater(c: Ctx, d: Disk, schedule: seq<nat>, depth: nat)
    requires c.ipg > 0 && c.vol.inodesPerBlock > 0 && schedule != []
    ensures var d', rest := Fixup(c.vol, d, schedule[0], depth).disk, schedule[1..];
            (exists k | 0 < k < |schedule| :: StopsAt(c, d, schedule, k, depth)) <==>
            (exists k | 0 <= k < |rest| :: StopsAt(c, d', rest, k, depth))
  {
    hide Fixup, StopsBetween;
    var d', rest := Fixup(c.vol, d, schedule[0], depth).disk, schedule[1..];
    forall k | 0 <= k < |rest|
      ensures StopsAt(c, d, schedule, k + 1, depth) <==> StopsAt(c, d', rest, k, depth)
    {
      assert schedule[..k + 1][1..] == rest[..k];
    }
    if k :| 0 <= k < |rest| && StopsAt(c, d', rest, k, depth) {
      assert StopsAt(c, d, schedule, k + 1, depth);
    }
    if k :| 0 < k < |schedule| && StopsAt(c, d, schedule, k, depth) {
      assert StopsAt(c, d', rest, k - 1, depth);
    }
  }

  lemma {:induction false} RunsCounts(c: Ctx, d0: Disk, d: Disk, schedule: seq<nat>, depth: nat)
    requires Start(c, d0) && depth > c.rank[c.Root()] && Good(c, d0, d)
    ensures c.ipg > 0 && c.vol.inodesPerBlock > 0
    ensures CountsMissed(c, d0, AfterRuns(c.vol, d, schedule, depth)) <==>
            || CountsMissed(c, d0, d)
            || (CountsMove(c, d0) && exists k | 0 <= k < |schedule| :: StopsAt(c, d, schedule, k, depth))
    decreases |schedule|
  {
    assert c.ipg > 0 && c.vol.inodesPerBlock > 0 && c.ipg <= c.npg && |d0.descs| > 0;
    hide Fixup, Good, CountsMissed, CountsMove, StopsBetween, Start;
    if schedule != [] {
      var d', rest := Fixup(c.vol, d, schedule[0], depth).disk, schedule[1..];
      GoodRun(c, d0, d, schedule[0], depth);
      OneRunCounts(c, d0, d, schedule[0], depth);
      RunsCounts(c, d0, d', rest, depth);
      assert StopsAt(c, d, schedule, 0, depth) <==> StopsBetween(c, d, schedule[0], depth);
      StopsLater(c, d, schedule, depth);
    }
  }

  /** Each of the counts `now` is the one in `was` and `extra` more, in a field of 16 bits. */
  ghost predicate CountsGrew(was: seq<nat>, now: seq<nat>, extra: nat) {
    |now| == |was| && forall k | 0 <= k < |was| :: now[k] == (was[k] + extra) % 0x1_0000
  }

  lemma FinalCountsGrew(c: Ctx, d0: Disk, counts: seq<nat>)
    requires Start(c, d0)
    ensures counts == FinalCounts(c, d0) <==> CountsGrew(d0.descs[0], counts, c.npg - c.ipg)
  {
    var final := FinalCounts(c, d0);
    assert CountsGrew(d0.descs[0], final, c.npg - c.ipg);
    if CountsGrew(d0.descs[0], counts, c.npg - c.ipg) {
      forall k | 0 <= k < |counts| ensures counts[k] == final[k] {
      }
    }
  }

  /** Once the work is done, the free inode count of every group has grown exactly once if and only if
      the growth does not show in the field, or no run of the schedule was stopped between the
      primary superblock and the primary descriptors. */
  lemma FreeCountsGrowOnce(c: Ctx, d0: Disk, schedule: seq<nat>, depth: nat)
    requires Start(c, d0) && depth > c.rank[c.Root()]
    requires Finished(c, d0, AfterRuns(c.vol, d0, schedule, depth))
    ensures CountsGrew(d0.descs[0], AfterRuns(c.vol, d0, schedule, depth).descs[0], c.npg - c.ipg) <==>
            || !CountsMove(c, d0)
            || forall k | 0 <= k < |schedule| :: !StopsAt(c, d0, schedule, k, depth)
  {
    assert Inv(c, d0, d0);
    NothingMissedAtStart(c, d0);
    RunsCounts(c, d0, d0, schedule, depth);
    FinalCountsGrew(c, d0, AfterRuns(c.vol, d0, schedule, depth).descs[0]);
  }

  /** The superblock `now` is `was` with every group grown to the new size: so many inodes in all, and
      the new ones free. */
  ghost predicate SuperGrew(c: Ctx, was: Superblock, now: Superblock)
    requires c.ipg <= c.npg
  {
    && now.inodesPerGroup == c.npg && now.inodesCount == c.vol.groups * c.npg
    && now.freeInodes == was.freeInodes + c.vol.groups * (c.npg - c.ipg)
  }

  /** Bits `lo` to `hi` are clear in `now`, and the others are as in `was`. */
  ghost predicate BitsCleared(was: seq<bool>, now: seq<bool>, lo: nat, hi: nat) {
    |now| == |was| && forall k | 0 <= k < |was| :: now[k] == (was[k] && !(lo <= k < hi))
  }

  /** What a finished disk holds beside the directories: every copy of the superblock has grown, every copy
      of the descriptors is that of the first group, groups without copies are as they were, and the bits
      of the new inodes are clear. */
  lemma FinishedCopies(c: Ctx, d0: Disk, d: Disk)
    requires Start(c, d0) && Finished(c, d0, d)
    ensures |d.supers| == |d.descs| == |d0.supers| == |d0.descs| && |d.bitmaps| == |d0.bitmaps|
    ensures forall i | 0 <= i < |d.supers| && c.vol.hasSuper[i] ::
              SuperGrew(c, d0.supers[0], d.supers[i]) && d.descs[i] == d.descs[0]
              && (i > 0 ==> !d.supers[i].descSizeLowBit)
    ensures forall i | 0 <= i < |d.supers| && !c.vol.hasSuper[i] ::
              d.supers[i] == d0.supers[i] && d.descs[i] == d0.descs[i]
    ensures forall i | 0 <= i < |d.bitmaps| :: BitsCleared(d0.bitmaps[i], d.bitmaps[i], c.ipg, c.npg)
  {
    hide Ctx.Tree, Ctx.PhaseDone, Ctx.Sound;
    forall i | 0 <= i < |d.supers|
      ensures if c.vol.hasSuper[i]
              then SuperGrew(c, d0.supers[0], d.supers[i]) && d.descs[i] == d.descs[0]
                   && (i > 0 ==> !d.supers[i].descSizeLowBit)
              else d.supers[i] == d0.supers[i] && d.descs[i] == d0.descs[i]
    {
      assert CopyFinal(c, d0, d, i);
      FinalSuperGrew(c, d0);
    }
  }

  lemma FinalSuperGrew(c: Ctx, d0: Disk)
    requires Start(c, d0) && ChecksPass(c.vol, d0.supers[0], c.npg)
    ensures SuperGrew(c, d0.supers[0], FinalSuper(c, d0)) && !FinalSuper(c, d0).descSizeLowBit
  {
    MulCommute(c.vol.groups, c.npg);
  }

  // ----- Paths

  /** Every entry that names a directory names one the tool knows; the dot entries included. */
  ghost predicate Closed(c: Ctx)
    requires c.Tree()
  {
    forall p, i, j | c.Live(p, i, j) && c.Target(p, i, j) in c.vol.inodes
      && c.vol.inodes[c.Target(p, i, j)].isDir :: c.Target(p, i, j) in c.rank
  }

  /** The number found under a name, before and after, leads to the same place. */
  lemma {:induction false} FoundBeforeAndAfter(c: Ctx, dirs: map<nat, seq<Entry>>, p: Pos,
                                               was: seq<seq<Entry>>, now: seq<seq<Entry>>, i: nat, j: nat, name: string)
    requires c.Tree() && c.PhaseDone(Update, dirs) && p in c.rank
    requires |was| == |now| == |c.vol.inodes[p].blocks| && i <= |was|
    requires forall k | 0 <= k < |was| :: was[k] == c.dirs0[c.Block(p, k)] && now[k] == dirs[c.Block(p, k)]
    requires forall i', j' | c.Slot(p, i', j') && Precedes(i', j', i, j) :: c.Live(p, i', j')
    ensures var a, b := FindFrom(was, i, j, name), FindFrom(now, i, j, name);
            && (a.None? <==> b.None?)
            && (a.Some? ==>
                  && PosOf(c.npg, b.value) == PosOf(c.ipg, a.value)
                  && exists i', j' :: c.Live(p, i', j') && c.Target(p, i', j') == PosOf(c.ipg, a.value))
    decreases |was| - i, if i < |was| then |was[i]| - j else 0
  {
    if i < |was| {
      if j >= |was[i]| {
        assert c.Block(p, i) in c.dirs0;
        FoundBeforeAndAfter(c, dirs, p, was, now, i + 1, 0, name);
      } else {
        assert c.Slot(p, i, j);
        NextIsLive(c, p, i, j);
        NextSlots(c, dirs, p, i, j);
        assert c.Block(p, i) in c.dirs0;
        if c.Live(p, i, j) {
          NextEntry(c, dirs, p, i, j);
          if was[i][j].name != name {
            FoundBeforeAndAfter(c, dirs, p, was, now, i, j + 1, name);
          }
        }
      }
    }
  }

  lemma LookupBeforeAndAfter(c: Ctx, dirs: map<nat, seq<Entry>>, p: Pos, name: string)
    requires c.Tree() && Closed(c) && c.PhaseDone(Update, dirs) && p in c.rank
    ensures var a, b := Lookup(c.vol, c.dirs0, p, name), Lookup(c.vol, dirs, p, name);
            && (a.None? <==> b.None?)
            && (a.Some? ==>
                  var q := PosOf(c.ipg, a.value);
                  PosOf(c.npg, b.value) == q && (q in c.rank || q !in c.vol.inodes || !c.vol.inodes[q].isDir))
  {
    hide FindFrom, PosOf, Ctx.Live, Ctx.Acyclic, Ctx.Reachable, Ctx.NumbersValid, Ctx.BlocksDistinct;
    hide Ctx.SlotsOk, Ctx.OthersKept, Ctx.ChildrenFirst;
    var blocks := c.vol.inodes[p].blocks;
    forall b | b in blocks ensures b in c.dirs0 && b in dirs {
      var i :| 0 <= i < |blocks| && blocks[i] == b;
      assert c.Block(p, i) in c.dirs0;
    }
    FoundBeforeAndAfter(c, dirs, p, ReadDir(c.dirs0, blocks), ReadDir(dirs, blocks), 0, 0, name);
  }

  /** Renumbering preserves meaning: every path leads to the same inode under the new group size as it
      did under the old one. */
  lemma {:induction false} PathsKeepTheirMeaning(c: Ctx, dirs: map<nat, seq<Entry>>, p: Pos, path: seq<string>)
    requires c.Tree() && Closed(c) && c.PhaseDone(Update, dirs)
    requires p in c.rank || p !in c.vol.inodes || !c.vol.inodes[p].isDir
    ensures Resolve(c.vol, c.npg, dirs, p, path) == Resolve(c.vol, c.ipg, c.dirs0, p, path)
    decreases |path|
  {
    if path != [] && p in c.rank {
      LookupBeforeAndAfter(c, dirs, p, path[0]);
      var found := Lookup(c.vol, c.dirs0, p, path[0]);
      if found.Some? {
        PathsKeepTheirMeaning(c, dirs, PosOf(c.ipg, found.value), path[1..]);
      }
    }
  }
}
