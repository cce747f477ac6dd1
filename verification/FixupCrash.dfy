/** Whole runs of the renumbering tool, stopped and restarted at any write. */
module FixupCrash {
  import opened Common
  import opened FixupModel
  import opened FixupPhases

  // ----- The sanity pass

  ghost predicate SoundBelow(c: Ctx, p: Pos)
    requires c.Tree() && p in c.rank
    decreases c.rank[p]
  {
    && c.SoundDir(p)
    && forall i, j | c.IsChild(p, i, j) :: SoundBelow(c, c.Target(p, i, j))
  }

  /** The directories above `q`, which shrink as one climbs towards the root. */
  ghost function Above(c: Ctx, q: Pos): set<Pos>
    requires q in c.rank
  {
    set p | p in c.rank && c.rank[p] > c.rank[q]
  }

  lemma {:induction false} SoundBelowRoot(c: Ctx, q: Pos)
    requires c.Tree() && q in c.rank && SoundBelow(c, c.Root())
    ensures SoundBelow(c, q)
    decreases Above(c, q)
  {
    if q != c.Root() {
      var p, i, j :| c.IsChild(p, i, j) && c.Target(p, i, j) == q;
      ChildBelow(c, p, i, j);
      assert p in Above(c, q) && p !in Above(c, p) && Above(c, p) <= Above(c, q);
      SoundBelowRoot(c, p);
    }
  }

  lemma {:induction false} SoundHasSoundBelow(c: Ctx, q: Pos)
    requires c.Tree() && c.Sound() && q in c.rank
    ensures SoundBelow(c, q)
    decreases c.rank[q]
  {
    forall i, j | c.IsChild(q, i, j) ensures SoundBelow(c, c.Target(q, i, j)) {
      ChildBelow(c, q, i, j);
      SoundHasSoundBelow(c, c.Target(q, i, j));
    }
  }

  /** The rest of directory `p`, from entry `j` of block `i` on, passes the sanity check. */
  ghost predicate SoundFrom(c: Ctx, p: Pos, i: int, j: int)
    requires c.Tree() && p in c.rank
  {
    forall i', j' | c.Live(p, i', j') && !Precedes(i', j', i, j) :: SoundAt(c, p, i', j')
  }

  ghost predicate SoundAt(c: Ctx, p: Pos, i: int, j: int)
    requires c.Tree() && c.Live(p, i, j)
  {
    && (c.Orig(p, i, j).fileType == Unknown ==> c.Target(p, i, j) in c.vol.inodes)
    && (c.Orig(p, i, j).fileType == Directory && !IsDots(c.Orig(p, i, j).name) ==>
          c.Target(p, i, j) in c.vol.inodes && c.vol.inodes[c.Target(p, i, j)].isDir)
    && (c.IsChild(p, i, j) ==> SoundBelow(c, c.Target(p, i, j)))
  }

  lemma SoundFromStart(c: Ctx, p: Pos)
    requires c.Tree() && p in c.rank
    ensures SoundFrom(c, p, 0, 0) <==> SoundBelow(c, p)
  {
    if SoundFrom(c, p, 0, 0) {
      forall i, j | c.Live(p, i, j) ensures SoundAt(c, p, i, j) {
        assert c.Slot(p, i, j) && !Precedes(i, j, 0, 0);
      }
    }
  }

  lemma SanityAtEntry(c: Ctx, p: Pos, i: int, j: int)
    requires c.Tree() && c.Live(p, i, j)
    ensures var e := c.Orig(p, i, j);
            var isDir := IsEntryDir(c.vol, c.ipg, e, Sanity);
            && ClearMark(e.inode) == e.inode
            && (isDir == None <==> e.fileType == Unknown && c.Target(p, i, j) !in c.vol.inodes)
            && (c.IsChild(p, i, j) <==>
                  && isDir.Some? && Descends(isDir.value, e, Sanity)
                  && c.Target(p, i, j) in c.vol.inodes && c.vol.inodes[c.Target(p, i, j)].isDir)
  {
    OldInumsFit(c.ipg, c.npg, c.vol.groups);
    MarkForms(c.Orig(p, i, j).inode);
  }

  lemma {:induction false} SanityWalk(c: Ctx, r: Run, p: Pos, bufs: seq<seq<Entry>>, i: nat, j: nat, depth: nat)
    requires c.Tree() && p in c.rank && depth > c.rank[p] && r.outcome == Ok && r.disk.dirs == c.dirs0
    requires |bufs| == |c.vol.inodes[p].blocks|
    requires forall k | 0 <= k < |bufs| :: bufs[k] == c.dirs0[c.Block(p, k)]
    requires i <= |bufs|
    requires forall i', j' | c.Slot(p, i', j') && Precedes(i', j', i, j) :: c.Live(p, i', j')
    ensures var r' := Walk(c.vol, c.ipg, c.npg, r, bufs, i, j, Sanity, depth).0;
            r' == r.(outcome := if SoundFrom(c, p, i, j) then Ok else Failed)
    decreases depth, 0, |bufs| - i, if i < |bufs| then |bufs[i]| - j else 0
  {
    if i >= |bufs| {
    } else if j >= |bufs[i]| {
      SanityWalk(c, r, p, bufs, i + 1, 0, depth);
      assert forall i', j' | c.Slot(p, i', j') :: Precedes(i', j', i, j) <==> Precedes(i', j', i + 1, 0);
    } else {
      assert c.Slot(p, i, j);
      NextIsLive(c, p, i, j);
      if c.Live(p, i, j) {
        SanityWalkEntry(c, r, p, bufs, i, j, depth);
      } else {
        forall i', j' | c.Live(p, i', j') && !Precedes(i', j', i, j) ensures false {
          assert AtOrBefore(i, j, i', j');
        }
      }
    }
  }

  lemma {:induction false} SanityWalkEntry(c: Ctx, r: Run, p: Pos, bufs: seq<seq<Entry>>, i: nat, j: nat, depth: nat)
    requires c.Tree() && p in c.rank && depth > c.rank[p] && r.outcome == Ok && r.disk.dirs == c.dirs0
    requires |bufs| == |c.vol.inodes[p].blocks|
    requires forall k | 0 <= k < |bufs| :: bufs[k] == c.dirs0[c.Block(p, k)]
    requires i <= |bufs| && c.Live(p, i, j)
    requires forall i', j' | c.Slot(p, i', j') && Precedes(i', j', i, j) :: c.Live(p, i', j')
    ensures var r' := Walk(c.vol, c.ipg, c.npg, r, bufs, i, j, Sanity, depth).0;
            r' == r.(outcome := if SoundFrom(c, p, i, j) then Ok else Failed)
    decreases depth, 0, |bufs| - i, |bufs[i]| - j, 0
  {
    var e := bufs[i][j];
    SanityAtEntry(c, p, i, j);
    assert !Precedes(i, j, i, j);
    forall i', j' | c.Slot(p, i', j')
      ensures !Precedes(i', j', i, j) <==> (i' == i && j' == j) || !Precedes(i', j', i, j + 1)
    {
    }
    assert SoundFrom(c, p, i, j) <==> SoundAt(c, p, i, j) && SoundFrom(c, p, i, j + 1);
    if IsEntryDir(c.vol, c.ipg, e, Sanity).Some? {
      WalkUnfold(c.vol, c.ipg, c.npg, r, bufs, i, j, Sanity, depth);
      assert bufs[i][j := e] == bufs[i];
      assert bufs[i := bufs[i]] == bufs;
      var r1 := SanityDescend(c, r, p, i, j, depth);
      if r1.outcome == Ok {
        SanityWalk(c, r1, p, bufs, i, j + 1, depth);
      }
    }
  }

  lemma {:induction false} SanityDescend(c: Ctx, r: Run, p: Pos, i: nat, j: nat, depth: nat) returns (r1: Run)
    requires c.Tree() && p in c.rank && depth > c.rank[p] && r.outcome == Ok && r.disk.dirs == c.dirs0
    requires c.Live(p, i, j) && IsEntryDir(c.vol, c.ipg, c.Orig(p, i, j), Sanity).Some?
    ensures r1 == Descend(c.vol, c.ipg, c.npg, r, c.Orig(p, i, j), Sanity, depth)
    ensures r1 == r.(outcome := if SoundAt(c, p, i, j) then Ok else Failed)
    decreases depth, 0, 0, 0
  {
    SanityAtEntry(c, p, i, j);
    var e := c.Orig(p, i, j);
    var q := c.Target(p, i, j);
    if Descends(IsEntryDir(c.vol, c.ipg, e, Sanity).value, e, Sanity) {
      r1 := RecurseDir(c.vol, c.ipg, c.npg, r, q, Sanity, depth - 1);
      if c.IsChild(p, i, j) {
        ChildBelow(c, p, i, j);
        SanityPass(c, r, q, depth - 1);
      }
    } else {
      r1 := r;
    }
  }

  /** The sanity pass writes nothing, and succeeds exactly on the trees the later passes can handle. */
  lemma {:induction false} SanityPass(c: Ctx, r: Run, p: Pos, depth: nat)
    requires c.Tree() && p in c.rank && depth > c.rank[p] && r.outcome == Ok && r.disk.dirs == c.dirs0
    ensures RecurseDir(c.vol, c.ipg, c.npg, r, p, Sanity, depth)
         == r.(outcome := if SoundBelow(c, p) then Ok else Failed)
    decreases depth, 1, 0, 0
  {
    var blocks := c.vol.inodes[p].blocks;
    forall b | b in blocks ensures b in r.disk.dirs {
      var i :| 0 <= i < |blocks| && blocks[i] == b;
      assert c.Block(p, i) in c.dirs0;
    }
    SanityWalk(c, r, p, ReadDir(r.disk.dirs, blocks), 0, 0, depth);
    SoundFromStart(c, p);
  }

  lemma SanityPassOnRoot(c: Ctx, r: Run, depth: nat)
    requires c.Tree() && depth > c.rank[c.Root()] && r.outcome == Ok && r.disk.dirs == c.dirs0
    ensures RecurseDir(c.vol, c.ipg, c.npg, r, c.Root(), Sanity, depth)
         == r.(outcome := if c.Sound() then Ok else Failed)
  {
    SanityPass(c, r, c.Root(), depth);
    if SoundBelow(c, c.Root()) {
      forall q | q in c.rank ensures c.SoundDir(q) {
        SoundBelowRoot(c, q);
      }
    } else if c.Sound() {
      SoundHasSoundBelow(c, c.Root());
    }
  }

  // ----- The end of a pass

  /** When the root is finished, everything is. */
  lemma {:induction false} FinishedBelowRoot(c: Ctx, mode: Mode, dirs: map<nat, seq<Entry>>, q: Pos)
    requires c.Tree() && c.PhaseInv(mode, dirs) && q in c.rank && c.AllAfter(mode, dirs, c.Root())
    ensures c.AllAfter(mode, dirs, q)
    decreases Above(c, q)
  {
    if q != c.Root() {
      var p, i, j :| c.IsChild(p, i, j) && c.Target(p, i, j) == q;
      ChildBelow(c, p, i, j);
      assert p in Above(c, q) && p !in Above(c, p) && Above(c, p) <= Above(c, q);
      FinishedBelowRoot(c, mode, dirs, p);
      assert c.IsAfter(mode, dirs, p, i, j);
    }
  }

  lemma RootPassFinishes(c: Ctx, mode: Mode, r: Run, depth: nat)
    requires c.Tree() && c.Sound() && mode != Sanity && r.outcome == Ok
    requires depth > c.rank[c.Root()] && c.PhaseInv(mode, r.disk.dirs)
    ensures var r' := RecurseDir(c.vol, c.ipg, c.npg, r, c.Root(), mode, depth);
            StepOk(c, mode, r, r') && (r'.outcome == Ok ==> c.PhaseDone(mode, r'.disk.dirs))
  {
    RecurseDirKeepsPhase(c, mode, r, c.Root(), depth);
    var r' := RecurseDir(c.vol, c.ipg, c.npg, r, c.Root(), mode, depth);
    if r'.outcome == Ok {
      forall q | q in c.rank ensures c.AllAfter(mode, r'.disk.dirs, q) {
        FinishedBelowRoot(c, mode, r'.disk.dirs, q);
      }
    }
  }

  /** An unmarked entry of the update pass: whatever chain of subdirectories one follows from it,
      every entry met has its new number. */
  lemma {:induction false} UnmarkedMeansSubtreeDone(c: Ctx, dirs: map<nat, seq<Entry>>, p: Pos, i: int, j: int,
                                                    chain: seq<(int, int)>)
    requires c.Tree() && c.PhaseInv(Update, dirs) && c.IsChild(p, i, j)
    requires !IsMarked(c.At(dirs, p, i, j).inode)
    ensures forall q | EndOf(c, c.Target(p, i, j), chain) == Some(q) :: c.AllAfter(Update, dirs, q)
    decreases |chain|
  {
    Forms(c, Update, p, i, j, c.At(dirs, p, i, j));
    assert c.AllAfter(Update, dirs, c.Target(p, i, j));
    if chain != [] && c.IsChild(c.Target(p, i, j), chain[0].0, chain[0].1) {
      var q, k, m := c.Target(p, i, j), chain[0].0, chain[0].1;
      assert c.IsAfter(Update, dirs, q, k, m);
      Forms(c, Update, q, k, m, c.At(dirs, q, k, m));
      UnmarkedMeansSubtreeDone(c, dirs, q, k, m, chain[1..]);
    }
  }

  /** The directory that a chain of subdirectory entries leads to. */
  ghost function EndOf(c: Ctx, p: Pos, chain: seq<(int, int)>): Option<Pos>
    requires c.Tree()
    decreases |chain|
  {
    if chain == [] then Some(p)
    else if !c.IsChild(p, chain[0].0, chain[0].1) then None
    else EndOf(c, c.Target(p, chain[0].0, chain[0].1), chain[1..])
  }

  /** Nothing is marked yet when marking starts. */
  lemma MarkingStarts(c: Ctx)
    requires c.Tree()
    ensures c.PhaseInv(Mark, c.dirs0)
  {
    forall p, i, j | c.Live(p, i, j) ensures !c.IsAfter(Mark, c.dirs0, p, i, j) {
      Forms(c, Mark, p, i, j, c.Orig(p, i, j));
      OldInumsFit(c.ipg, c.npg, c.vol.groups);
      MarkForms(c.Orig(p, i, j).inode);
    }
  }

  /** The end of marking is the start of updating. */
  lemma UpdatingStarts(c: Ctx, dirs: map<nat, seq<Entry>>)
    requires c.Tree() && c.PhaseDone(Mark, dirs)
    ensures c.PhaseInv(Update, dirs)
  {
    forall p, i, j | c.Live(p, i, j)
      ensures c.At(dirs, p, i, j) == c.Before(Update, c.Orig(p, i, j)) && !c.IsAfter(Update, dirs, p, i, j)
    {
      assert c.AllAfter(Mark, dirs, p);
      assert c.IsAfter(Mark, dirs, p, i, j);
      Forms(c, Update, p, i, j, c.Before(Update, c.Orig(p, i, j)));
      OldInumsFit(c.ipg, c.npg, c.vol.groups);
      MarkForms(c.Orig(p, i, j).inode);
    }
  }
}
