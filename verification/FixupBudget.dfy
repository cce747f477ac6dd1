/** A run needs only so many writes: with that many or more it is not stopped, and what it does no
    longer depends on how many there are. */
module FixupBudget {
  import opened Common
  import opened FixupModel
  import opened FixupPhases
  import opened FixupRuns
  import opened FixupTheorems

  // ----- The directory walk

  lemma {:induction false} WriteDirCost(d: Disk, blocks: seq<nat>, bufs: seq<seq<Entry>>, i: nat)
    returns (w: nat, d': Disk)
    requires |bufs| == |blocks|
    ensures forall b: nat | b >= w :: WriteDir(Run(d, b, Ok), blocks, bufs, i) == Run(d', b - w, Ok)
    decreases |blocks| - i
  {
    if i >= |blocks| {
      w, d' := 0, d;
    } else {
      var d1 := d.(dirs := d.dirs[blocks[i] := bufs[i]]);
      w, d' := WriteDirCost(d1, blocks, bufs, i + 1);
      forall b: nat | b >= w + 1
        ensures WriteDir(Run(d, b, Ok), blocks, bufs, i) == Run(d', b - (w + 1), Ok)
      {
        assert WriteDir(Run(d1, b - 1, Ok), blocks, bufs, i + 1) == Run(d', b - 1 - w, Ok);
      }
      w := w + 1;
    }
  }

  lemma {:induction false} RecurseDirCost(vol: Volume, ipg: nat, npg: nat, d: Disk, p: Pos, mode: Mode, depth: nat)
    returns (w: nat, d': Disk, o: Outcome)
    requires ipg > 0
    ensures o != Stopped && (mode == Sanity ==> w == 0)
    ensures forall b: nat | b >= w ::
              RecurseDir(vol, ipg, npg, Run(d, b, Ok), p, mode, depth) == Run(d', b - w, o)
    decreases depth, 1, 0, 0
  {
    hide Walk, WriteDir;
    w, d', o := 0, d, Failed;
    if depth > 0 && p in vol.inodes && vol.inodes[p].isDir && forall b | b in vol.inodes[p].blocks :: b in d.dirs {
      var blocks := vol.inodes[p].blocks;
      var bufs;
      w, d', o, bufs := WalkCost(vol, ipg, npg, d, ReadDir(d.dirs, blocks), 0, 0, mode, depth);
      if o == Ok && mode != Sanity {
        var w1, d1 := WriteDirCost(d', blocks, bufs, 0);
        forall b: nat | b >= w + w1
          ensures RecurseDir(vol, ipg, npg, Run(d, b, Ok), p, mode, depth) == Run(d1, b - (w + w1), Ok)
        {
          assert WriteDir(Run(d', b - w, Ok), blocks, bufs, 0) == Run(d1, b - w - w1, Ok);
        }
        w, d' := w + w1, d1;
      }
    }
  }

  /** The cases in which the walk does not come to an entry. */
  lemma WalkHead(vol: Volume, ipg: nat, npg: nat, r: Run, bufs: seq<seq<Entry>>, i: nat, j: nat, mode: Mode,
                 depth: nat)
    requires ipg > 0 && depth > 0
    ensures var res := Walk(vol, ipg, npg, r, bufs, i, j, mode, depth);
            if i >= |bufs| then res == (r, bufs)
            else if j >= |bufs[i]| then res == Walk(vol, ipg, npg, r, bufs, i + 1, 0, mode, depth)
            else if bufs[i][j].inode == 0 then res == (r, bufs)
            else IsEntryDir(vol, ipg, bufs[i][j], mode).None? ==> res == (r.(outcome := Failed), bufs)
  {
    hide RecurseDir, IsEntryDir, PosOf, ProcessEntry, Descends;
  }

  lemma {:induction false} WalkCost(vol: Volume, ipg: nat, npg: nat, d: Disk, bufs: seq<seq<Entry>>, i: nat, j: nat,
                                    mode: Mode, depth: nat)
    returns (w: nat, d': Disk, o: Outcome, bufs': seq<seq<Entry>>)
    requires ipg > 0 && depth > 0
    ensures o != Stopped && |bufs'| == |bufs| && (mode == Sanity ==> w == 0)
    ensures forall b: nat | b >= w ::
              Walk(vol, ipg, npg, Run(d, b, Ok), bufs, i, j, mode, depth) == (Run(d', b - w, o), bufs')
    decreases depth, 0, |bufs| - i, if i < |bufs| then |bufs[i]| - j else 0
  {
    hide Walk, IsEntryDir;
    w, d', o, bufs' := 0, d, Ok, bufs;
    forall b: nat {
      WalkHead(vol, ipg, npg, Run(d, b, Ok), bufs, i, j, mode, depth);
    }
    if i < |bufs| {
      if j >= |bufs[i]| {
        w, d', o, bufs' := WalkCost(vol, ipg, npg, d, bufs, i + 1, 0, mode, depth);
      } else if bufs[i][j].inode != 0 {
        var e := bufs[i][j];
        var isDir := IsEntryDir(vol, ipg, e, mode);
        if isDir == None {
          o := Failed;
        } else {
          w, d', o, bufs' := EntryCost(vol, ipg, npg, d, bufs, i, j, mode, depth, isDir.value);
        }
      }
    }
  }

  /** One entry and the rest of the walk. */
  lemma {:induction false} EntryCost(vol: Volume, ipg: nat, npg: nat, d: Disk, bufs: seq<seq<Entry>>, i: nat, j: nat,
                                     mode: Mode, depth: nat, isDir: bool)
    returns (w: nat, d': Disk, o: Outcome, bufs': seq<seq<Entry>>)
    requires ipg > 0 && depth > 0 && i < |bufs| && j < |bufs[i]| && bufs[i][j].inode != 0
    requires IsEntryDir(vol, ipg, bufs[i][j], mode) == Some(isDir)
    ensures o != Stopped && |bufs'| == |bufs| && (mode == Sanity ==> w == 0)
    ensures forall b: nat | b >= w ::
              Walk(vol, ipg, npg, Run(d, b, Ok), bufs, i, j, mode, depth) == (Run(d', b - w, o), bufs')
    decreases depth, 0, |bufs| - i, |bufs[i]| - j, 0
  {
    hide Walk, RecurseDir, IsEntryDir, PosOf, ProcessEntry, Descends;
    var e := bufs[i][j];
    var w1, d1, o1 := 0, d, Ok;
    if Descends(isDir, e, mode) {
      w1, d1, o1 := RecurseDirCost(vol, ipg, npg, d, PosOf(ipg, ClearMark(e.inode)), mode, depth - 1);
    }
    if o1 != Ok {
      w, d', o, bufs' := w1, d1, o1, bufs;
      forall b: nat | b >= w
        ensures Walk(vol, ipg, npg, Run(d, b, Ok), bufs, i, j, mode, depth) == (Run(d', b - w, o), bufs')
      {
        WalkUnfold(vol, ipg, npg, Run(d, b, Ok), bufs, i, j, mode, depth);
      }
    } else {
      var next := bufs[i := bufs[i][j := ProcessEntry(mode, ipg, npg, e)]];
      var w2;
      w2, d', o, bufs' := WalkCost(vol, ipg, npg, d1, next, i, j + 1, mode, depth);
      w := w1 + w2;
      forall b: nat | b >= w
        ensures Walk(vol, ipg, npg, Run(d, b, Ok), bufs, i, j, mode, depth) == (Run(d', b - w, o), bufs')
      {
        WalkUnfold(vol, ipg, npg, Run(d, b, Ok), bufs, i, j, mode, depth);
        assert Walk(vol, ipg, npg, Run(d1, b - w1, Ok), next, i, j + 1, mode, depth)
            == (Run(d', b - w1 - w2, o), bufs');
      }
    }
  }

  // ----- The phases

  lemma SetStateCost(d: Disk, state: FixupState) returns (d': Disk)
    requires |d.supers| > 0
    ensures forall b: nat | b >= 2 :: SetState(Run(d, b, Ok), state) == Run(d', b - 2, Ok)
  {
    d' := d.(magic := MagicOf(state),
      supers := d.supers[0 := d.supers[0].(descSizeLowBit := state != Unset)]);
  }

  lemma PhaseUnsetCost(vol: Volume, ipg: nat, npg: nat, d: Disk, depth: nat)
    returns (w: nat, d': Disk, o: Outcome)
    requires ipg > 0 && |d.supers| > 0 && vol.inodesPerBlock > 0
    ensures o != Stopped
    ensures forall b: nat | b >= w :: PhaseUnset(vol, ipg, npg, Run(d, b, Ok), depth) == Run(d', b - w, o)
  {
    hide RecurseDir, SetState, PosOf, ChecksPass;
    w, d', o := 0, d, Ok;
    if GetState(d.magic) == Unset {
      w, d', o := RecurseDirCost(vol, ipg, npg, d, PosOf(ipg, ROOT_INO), Sanity, depth);
      if o == Ok {
        if !ChecksPass(vol, d.supers[0], npg) {
          d', o := d, Failed;
        } else {
          w := 2;
          d' := SetStateCost(d, MarkingInums);
        }
      }
    }
  }

  lemma PhaseWalkCost(vol: Volume, ipg: nat, npg: nat, d: Disk, depth: nat, mode: Mode,
                      from: FixupState, to: FixupState) returns (w: nat, d': Disk, o: Outcome)
    requires ipg > 0
    ensures o != Stopped
    ensures forall b: nat | b >= w ::
              PhaseWalk(vol, ipg, npg, Run(d, b, Ok), depth, mode, from, to) == Run(d', b - w, o)
  {
    hide RecurseDir, SetState, PosOf, GetState;
    w, d', o := 0, d, Ok;
    if GetState(d.magic) == from {
      w, d', o := RecurseDirCost(vol, ipg, npg, d, PosOf(ipg, ROOT_INO), mode, depth);
      if o == Ok && |d'.supers| > 0 {
        var d1 := SetStateCost(d', to);
        forall b: nat | b >= w + 2
          ensures PhaseWalk(vol, ipg, npg, Run(d, b, Ok), depth, mode, from, to) == Run(d1, b - (w + 2), Ok)
        {
          assert SetState(Run(d', b - w, Ok), to) == Run(d1, b - w - 2, Ok);
        }
        w, d' := w + 2, d1;
      }
    }
  }

  lemma BeforeSuperCost(vol: Volume, ipg: nat, npg: nat, d: Disk, depth: nat)
    returns (w: nat, d': Disk, o: Outcome)
    requires ipg > 0 && |d.supers| > 0 && vol.inodesPerBlock > 0
    ensures o != Stopped
    ensures forall b: nat | b >= w :: BeforeSuper(vol, ipg, npg, d, b, depth) == Run(d', b - w, o)
  {
    hide PhaseUnset, RecurseDir, SetState, PosOf;
    w, d', o := PhaseUnsetCost(vol, ipg, npg, d, depth);
    if o == Ok {
      var w1, d1, o1 := PhaseWalkCost(vol, ipg, npg, d', depth, Mark, MarkingInums, UpdatingInums);
      if o1 != Ok {
        forall b: nat | b >= w + w1
          ensures BeforeSuper(vol, ipg, npg, d, b, depth) == Run(d1, b - (w + w1), o1)
        {
          assert PhaseWalk(vol, ipg, npg, Run(d', b - w, Ok), depth, Mark, MarkingInums, UpdatingInums)
              == Run(d1, b - w - w1, o1);
        }
        w, d', o := w + w1, d1, o1;
      } else {
        var w2, d2, o2 := PhaseWalkCost(vol, ipg, npg, d1, depth, Update, UpdatingInums, UpdatingSb);
        forall b: nat | b >= w + w1 + w2
          ensures BeforeSuper(vol, ipg, npg, d, b, depth) == Run(d2, b - (w + w1 + w2), o2)
        {
          assert PhaseWalk(vol, ipg, npg, Run(d', b - w, Ok), depth, Mark, MarkingInums, UpdatingInums)
              == Run(d1, b - w - w1, Ok);
          assert PhaseWalk(vol, ipg, npg, Run(d1, b - w - w1, Ok), depth, Update, UpdatingInums, UpdatingSb)
              == Run(d2, b - w - w1 - w2, o2);
        }
        w, d', o := w + w1 + w2, d2, o2;
      }
    }
  }

  lemma {:induction false} BitmapPassCost(d: Disk, ipg: nat, npg: nat, i: nat) returns (w: nat, d': Disk)
    ensures |d'.supers| == |d.supers| && |d'.descs| == |d.descs|
    ensures forall b: nat | b >= w :: BitmapPass(Run(d, b, Ok), ipg, npg, i) == Run(d', b - w, Ok)
    decreases |d.bitmaps| - i
  {
    w, d' := 0, d;
    if i < |d.bitmaps| {
      var cleared := ClearBits(d.bitmaps[i], ipg, npg);
      if cleared == d.bitmaps[i] {
        w, d' := BitmapPassCost(d, ipg, npg, i + 1);
      } else {
        var d1 := d.(bitmaps := d.bitmaps[i := cleared]);
        w, d' := BitmapPassCost(d1, ipg, npg, i + 1);
        forall b: nat | b >= w + 1 ensures BitmapPass(Run(d, b, Ok), ipg, npg, i) == Run(d', b - (w + 1), Ok) {
          assert BitmapPass(Run(d1, b - 1, Ok), ipg, npg, i + 1) == Run(d', b - 1 - w, Ok);
        }
        w := w + 1;
      }
    }
  }

  lemma {:induction false} SuperPassCost(vol: Volume, d: Disk, sb: Superblock, counts: seq<nat>, i: nat)
    returns (w: nat, d': Disk)
    requires |d.supers| == |d.descs| == |vol.hasSuper|
    ensures |d'.supers| == |d.supers|
    ensures forall b: nat | b >= w :: SuperPass(vol, Run(d, b, Ok), sb, counts, i) == Run(d', b - w, Ok)
    decreases |vol.hasSuper| - i
  {
    w, d' := 0, d;
    if i < |vol.hasSuper| {
      if !vol.hasSuper[i] {
        w, d' := SuperPassCost(vol, d, sb, counts, i + 1);
      } else {
        var copy := if i == 0 then sb else sb.(descSizeLowBit := false);
        var d1 := d.(supers := d.supers[i := copy], descs := d.descs[i := counts]);
        w, d' := SuperPassCost(vol, d1, copy, counts, i + 1);
        forall b: nat | b >= w + 2 ensures SuperPass(vol, Run(d, b, Ok), sb, counts, i) == Run(d', b - (w + 2), Ok) {
          assert SuperPass(vol, Run(d1, b - 2, Ok), copy, counts, i + 1) == Run(d', b - 2 - w, Ok);
        }
        w := w + 2;
      }
    }
  }

  lemma UpdateCost(vol: Volume, d: Disk, ipg: nat, npg: nat, counts: seq<nat>)
    returns (w: nat, d': Disk, o: Outcome)
    requires |d.supers| == |d.descs| == |vol.hasSuper| > 0 && vol.inodesPerBlock > 0
    ensures o != Stopped && |d'.supers| > 0
    ensures forall b: nat | b >= w :: UpdateSuperblocks(vol, Run(d, b, Ok), ipg, npg, counts) == Run(d', b - w, o)
  {
    hide BitmapPass, SuperPass, ChecksPass, GrownSuper, GrownCounts;
    o := Ok;
    w, d' := BitmapPassCost(d, ipg, npg, 0);
    var sb := d.supers[0];
    if !ChecksPass(vol, sb, npg) {
      o := Failed;
    } else {
      assert sb.inodesPerGroup <= npg by { ChecksGrow(vol, sb, npg); }
      var sb1, grown := GrownSuper(vol, sb, npg), GrownCounts(counts, npg - sb.inodesPerGroup);
      var w1, d1 := SuperPassCost(vol, d', sb1, grown, 0);
      forall b: nat | b >= w + w1
        ensures UpdateSuperblocks(vol, Run(d, b, Ok), ipg, npg, counts) == Run(d1, b - (w + w1), Ok)
      {
        assert SuperPass(vol, Run(d', b - w, Ok), sb1, grown, 0) == Run(d1, b - w - w1, Ok);
      }
      w, d' := w + w1, d1;
    }
  }

  lemma ChecksGrow(vol: Volume, sb: Superblock, npg: nat)
    requires vol.inodesPerBlock > 0 && ChecksPass(vol, sb, npg)
    ensures sb.inodesPerGroup <= npg
  {
  }

  lemma PhaseSuperCost(vol: Volume, ipg: nat, npg: nat, d: Disk, counts: seq<nat>)
    returns (w: nat, d': Disk, o: Outcome)
    ensures o != Stopped
    ensures forall b: nat | b >= w :: PhaseSuper(vol, ipg, npg, Run(d, b, Ok), counts) == Run(d', b - w, o)
  {
    hide UpdateSuperblocks, SetState;
    w, d', o := 0, d, Ok;
    if GetState(d.magic) == UpdatingSb {
      if !(|d.supers| == |d.descs| == |vol.hasSuper| > 0) || vol.inodesPerBlock == 0 {
        o := Failed;
      } else {
        w, d', o := UpdateCost(vol, d, ipg, npg, counts);
        if o == Ok {
          var d1 := SetStateCost(d', Unset);
          forall b: nat | b >= w + 2
            ensures PhaseSuper(vol, ipg, npg, Run(d, b, Ok), counts) == Run(d1, b - (w + 2), Ok)
          {
            assert SetState(Run(d', b - w, Ok), Unset) == Run(d1, b - w - 2, Ok);
          }
          w, d' := w + 2, d1;
        }
      }
    }
  }

  /** On any disk at all there is a number of writes with which the tool is not stopped, and further
      ones are left over. */
  lemma FixupCost(vol: Volume, d: Disk, depth: nat) returns (w: nat, d': Disk, o: Outcome)
    ensures o != Stopped
    ensures forall b: nat | b >= w :: Fixup(vol, d, b, depth) == Run(d', b - w, o)
  {
    hide BeforeSuper, PhaseSuper, AlignUp, PosOf;
    w, d', o := 0, d, Failed;
    if |d.supers| > 0 && |d.descs| > 0 && vol.inodesPerBlock > 0 && d.supers[0].inodesPerGroup > 0 {
      var ipg := d.supers[0].inodesPerGroup;
      var npg := AlignUp(ipg, vol.inodesPerBlock);
      var root := PosOf(ipg, ROOT_INO);
      if root in vol.inodes && vol.inodes[root].isDir {
        w, d', o := BeforeSuperCost(vol, ipg, npg, d, depth);
        var w1, d1, o1 := 0, d', o;
        if o == Ok {
          w1, d1, o1 := PhaseSuperCost(vol, ipg, npg, d', d.descs[0]);
        }
        forall b: nat | b >= w + w1 ensures Fixup(vol, d, b, depth) == Run(d1, b - (w + w1), o1) {
          if o == Ok {
            assert PhaseSuper(vol, ipg, npg, Run(d', b - w, Ok), d.descs[0]) == Run(d1, b - w - w1, o1);
          } else {
            NotReached(vol, ipg, npg, Run(d', b - w, o), d.descs[0]);
          }
        }
        w, d', o := w + w1, d1, o1;
      }
    }
  }

  lemma NotReached(vol: Volume, ipg: nat, npg: nat, r: Run, counts: seq<nat>)
    requires r.outcome != Ok
    ensures PhaseSuper(vol, ipg, npg, r, counts) == r
  {
  }

  // ----- The work gets done

  /** With `w` writes or more, a run on `d` completes the work. */
  ghost predicate Suffices(c: Ctx, d0: Disk, d: Disk, w: nat, depth: nat)
    requires Start(c, d0)
  {
    forall b: nat | b >= w ::
      var r := Fixup(c.vol, d, b, depth);
      r.outcome == Ok && RenumberedOnce(c, r.disk.dirs) && Finished(c, d0, r.disk)
  }

  /** After any stopped runs there is a number of writes that completes the work, on every filesystem
      the sanity pass accepts. */
  lemma EnoughWritesComplete(c: Ctx, d0: Disk, schedule: seq<nat>, depth: nat)
    requires Start(c, d0) && depth > c.rank[c.Root()] && Passes(c, d0)
    ensures exists w: nat :: Suffices(c, d0, AfterRuns(c.vol, d0, schedule, depth), w, depth)
  {
    hide Fixup, AfterRuns, Finished, RenumberedOnce, Passes;
    var d := AfterRuns(c.vol, d0, schedule, depth);
    var w, d', o := FixupCost(c.vol, d, depth);
    forall b: nat | b >= w
      ensures var r := Fixup(c.vol, d, b, depth);
              r.outcome == Ok && RenumberedOnce(c, r.disk.dirs) && Finished(c, d0, r.disk)
    {
      UnstoppedRunCompletes(c, d0, schedule, b, depth);
    }
    assert Suffices(c, d0, d, w, depth);
  }
}
