/** The superblock phase of the renumbering tool, and one whole run. */
module FixupSuper {
  import opened Common
  import opened FixupModel
  import opened FixupPhases
  import opened FixupRuns

  // ----- Bitmaps

  lemma ClearBitsTwice(bits: seq<bool>, lo: nat, hi: nat)
    ensures ClearBits(ClearBits(bits, lo, hi), lo, hi) == ClearBits(bits, lo, hi)
    ensures lo >= hi ==> ClearBits(bits, lo, hi) == bits
  {
  }

  /** The bitmap pass from a disk on which some bitmaps may have been cleared by an earlier run. */
  lemma {:induction false} BitmapPassFinishes(c: Ctx, d0: Disk, r: Run, ipg: nat, i: nat)
    requires r.outcome == Ok && BitsBetween(c, d0, r.disk) && i <= |r.disk.bitmaps|
    requires ipg == c.ipg || (ipg == c.npg && BitsFinal(c, d0, r.disk))
    requires forall k | 0 <= k < i :: r.disk.bitmaps[k] == ClearBits(d0.bitmaps[k], c.ipg, c.npg)
    ensures var r' := BitmapPass(r, ipg, c.npg, i);
            && r'.outcome != Failed && (r'.outcome == Stopped ==> r'.budget == 0)
            && BitsBetween(c, d0, r'.disk)
            && (r'.outcome == Ok ==> BitsFinal(c, d0, r'.disk))
            && (ipg == c.npg && BitsFinal(c, d0, r.disk) ==> r' == r)
    decreases |r.disk.bitmaps| - i
  {
    if i < |r.disk.bitmaps| {
      ClearBitsTwice(r.disk.bitmaps[i], ipg, c.npg);
      ClearBitsTwice(d0.bitmaps[i], c.ipg, c.npg);
      var cleared := ClearBits(r.disk.bitmaps[i], ipg, c.npg);
      if cleared == r.disk.bitmaps[i] {
        BitmapPassFinishes(c, d0, r, ipg, i + 1);
      } else if r.budget > 0 {
        var r1 := Write(r, r.disk.(bitmaps := r.disk.bitmaps[i := cleared]));
        BitmapPassFinishes(c, d0, r1, ipg, i + 1);
      }
    }
  }

  // ----- Superblock and descriptor copies

  /** The write loop past the primary copy. */
  lemma {:induction false} BackupCopies(c: Ctx, d0: Disk, r: Run, sb: Superblock, i: nat)
    requires Start(c, d0) && r.outcome == Ok && SbBegun(c, d0, r.disk) && 0 < i <= |r.disk.supers|
    requires Plain(sb) == FinalSuper(c, d0)
    requires forall k | 0 <= k < i :: CopyFinal(c, d0, r.disk, k)
    ensures var r' := SuperPass(c.vol, r, sb, r.disk.descs[0], i);
            && r'.outcome != Failed && (r'.outcome == Stopped ==> r'.budget == 0)
            && r'.disk == r.disk.(supers := r'.disk.supers, descs := r'.disk.descs)
            && SbBegun(c, d0, r'.disk) && r'.disk.descs[0] == r.disk.descs[0]
            && r'.disk.supers[0] == r.disk.supers[0]
            && (r'.outcome == Ok ==> forall k | 0 <= k < |r'.disk.supers| :: CopyFinal(c, d0, r'.disk, k))
    decreases |r.disk.supers| - i
  {
    if i < |r.disk.supers| {
      if !c.vol.hasSuper[i] {
        assert CopyBetween(c, d0, r.disk, i);
        BackupCopies(c, d0, r, sb, i + 1);
      } else {
        var r1 := WriteSuper(r, i, Plain(sb));
        if r1.outcome == Ok {
          OneSuperCopy(c, d0, r.disk, r1.disk, i);
          var r2 := Write(r1, r1.disk.(descs := r1.disk.descs[i := r.disk.descs[0]]));
          if r2.outcome == Ok {
            OneDescCopy(c, d0, r1.disk, r2.disk, i);
            BackupCopies(c, d0, r2, Plain(sb), i + 1);
          }
        }
      }
    }
  }

  lemma OneSuperCopy(c: Ctx, d0: Disk, d: Disk, d': Disk, i: nat)
    requires Start(c, d0) && SbBegun(c, d0, d) && 0 < i < |d.supers| && c.vol.hasSuper[i]
    requires d' == d.(supers := d.supers[i := FinalSuper(c, d0)])
    ensures SbBegun(c, d0, d')
    ensures forall k | 0 <= k < i && CopyFinal(c, d0, d, k) :: CopyFinal(c, d0, d', k)
  {
    forall k | 0 < k < |d'.supers| ensures CopyBetween(c, d0, d', k) {
      assert CopyBetween(c, d0, d, k);
    }
  }

  lemma OneDescCopy(c: Ctx, d0: Disk, d: Disk, d': Disk, i: nat)
    requires Start(c, d0) && SbBegun(c, d0, d) && 0 < i < |d.supers| && c.vol.hasSuper[i]
    requires d.supers[i] == FinalSuper(c, d0)
    requires d' == d.(descs := d.descs[i := d.descs[0]])
    ensures SbBegun(c, d0, d')
    ensures forall k | 0 <= k < i && CopyFinal(c, d0, d, k) :: CopyFinal(c, d0, d', k)
    ensures CopyFinal(c, d0, d', i)
  {
    forall k | 0 < k < |d'.supers| ensures CopyBetween(c, d0, d', k) {
      assert CopyBetween(c, d0, d, k);
    }
  }

  /** The disk of the superblock phase after a write or two: the body of `PrimaryCopy`. */
  ghost predicate SbStep(c: Ctx, d0: Disk, r: Run, r': Run)
    requires Start(c, d0)
  {
    && r'.outcome != Failed && (r'.outcome == Stopped ==> r'.budget == 0)
    && r'.disk == r.disk.(supers := r'.disk.supers, descs := r'.disk.descs)
    && (SbWaiting(c, d0, r'.disk) || SbBegun(c, d0, r'.disk))
    && (r'.outcome == Ok ==>
          && SbBegun(c, d0, r'.disk)
          && forall k | 0 <= k < |r'.disk.supers| :: CopyFinal(c, d0, r'.disk, k))
  }

  /** The write loop from a disk whose primary superblock has not been written. The descriptors keep
      their old counts next to the new superblock exactly if the loop had one write left. */
  lemma {:induction false} FirstSuperPass(c: Ctx, d0: Disk, r: Run, sb: Superblock)
    requires Start(c, d0) && r.outcome == Ok && SbWaiting(c, d0, r.disk) && BitsFinal(c, d0, r.disk)
    requires Plain(sb) == FinalSuper(c, d0)
    ensures |r.disk.supers| == |r.disk.descs| == |c.vol.hasSuper|
    ensures var r' := SuperPass(c.vol, r, sb, FinalCounts(c, d0), 0);
            && SbStep(c, d0, r, r')
            && (r'.outcome == Ok ==> r'.disk.descs[0] == FinalCounts(c, d0))
            && (if r.budget == 1
                then r'.outcome == Stopped && r'.disk.supers[0] == sb && r'.disk.descs == r.disk.descs
                else r'.disk.supers[0] == r.disk.supers[0] || r'.disk.descs[0] == FinalCounts(c, d0))
            && r'.disk.supers[0].descSizeLowBit in {sb.descSizeLowBit, r.disk.supers[0].descSizeLowBit}
  {
    assert |r.disk.supers[0 := Plain(r.disk.supers[0])]| == |d0.supers|;
    var counts := FinalCounts(c, d0);
    var r1 := WriteSuper(r, 0, sb);
    if r1.outcome == Ok {
      PrimarySuperWritten(c, d0, r.disk, r1.disk, sb);
      var r2 := Write(r1, r1.disk.(descs := r1.disk.descs[0 := counts]));
      if r2.outcome == Ok {
        PrimaryDescWritten(c, d0, r1.disk, r2.disk);
        BackupCopies(c, d0, r2, sb, 1);
      }
    }
  }

  lemma PrimarySuperWritten(c: Ctx, d0: Disk, d: Disk, d': Disk, sb: Superblock)
    requires Start(c, d0) && SbWaiting(c, d0, d) && BitsFinal(c, d0, d)
    requires Plain(sb) == FinalSuper(c, d0) && d' == d.(supers := d.supers[0 := sb])
    ensures SbBegun(c, d0, d') && d'.descs == d0.descs
    ensures forall i | 0 < i < |d'.supers| :: d'.supers[i] == d0.supers[i]
  {
    assert |d.supers[0 := Plain(d.supers[0])]| == |d0.supers|;
    forall i | 0 < i < |d'.supers| ensures d'.supers[i] == d0.supers[i] && CopyBetween(c, d0, d', i) {
      assert d.supers[0 := Plain(d.supers[0])][i] == d0.supers[0 := Plain(d0.supers[0])][i];
    }
  }

  lemma PrimaryDescWritten(c: Ctx, d0: Disk, d: Disk, d': Disk)
    requires Start(c, d0) && SbBegun(c, d0, d) && d.descs == d0.descs
    requires d' == d.(descs := d.descs[0 := FinalCounts(c, d0)])
    ensures SbBegun(c, d0, d') && CopyFinal(c, d0, d', 0)
  {
    forall i | 0 < i < |d'.supers| ensures CopyBetween(c, d0, d', i) {
      assert CopyBetween(c, d0, d, i);
    }
  }

  lemma CountsSettled(c: Ctx, d0: Disk, d: Disk)
    requires Start(c, d0) && SbBegun(c, d0, d)
    ensures GrownCounts(d.descs[0], 0) == d.descs[0]
  {
  }

  /** The write loop on a disk where an earlier run has already written the primary superblock. */
  lemma {:induction false} LaterSuperPass(c: Ctx, d0: Disk, r: Run, sb: Superblock)
    requires Start(c, d0) && r.outcome == Ok && SbBegun(c, d0, r.disk)
    requires sb == r.disk.supers[0]
    ensures var r' := SuperPass(c.vol, r, sb, r.disk.descs[0], 0);
            && SbStep(c, d0, r, r') && SbBegun(c, d0, r'.disk)
            && r'.disk.descs[0] == r.disk.descs[0] && r'.disk.supers[0] == r.disk.supers[0]
  {
    var r1 := WriteSuper(r, 0, sb);
    if r1.outcome == Ok {
      assert r.disk.supers[0 := sb] == r.disk.supers;
      assert r1.disk == r.disk;
      var r2 := Write(r1, r1.disk.(descs := r1.disk.descs[0 := r.disk.descs[0]]));
      if r2.outcome == Ok {
        assert r.disk.descs[0 := r.disk.descs[0]] == r.disk.descs;
        assert r2.disk == r.disk;
        assert CopyFinal(c, d0, r2.disk, 0);
        BackupCopies(c, d0, r2, sb, 1);
      }
    }
  }

  // ----- The superblock phase

  lemma GrownChecks(c: Ctx, d0: Disk, sb: Superblock)
    requires Start(c, d0) && Passes(c, d0) && Plain(sb) == FinalSuper(c, d0)
    ensures ChecksPass(c.vol, sb, c.npg) && GrownSuper(c.vol, sb, c.npg) == sb
  {
    assert c.npg - sb.inodesPerGroup == 0;
    assert c.vol.groups * 0 == 0;
  }

  /** What the superblock phase may leave behind. */
  ghost predicate SbOutcome(c: Ctx, d0: Disk, r: Run, r': Run)
    requires Start(c, d0)
  {
    && r'.outcome != Failed && (r'.outcome == Stopped ==> r'.budget == 0)
    && (Inv(c, d0, r'.disk) || Finished(c, d0, r'.disk))
    && (r'.outcome == Ok ==>
          Finished(c, d0, r'.disk) && r'.disk.magic == 0 && !r'.disk.supers[0].descSizeLowBit)
    && r'.disk.dirs == r.disk.dirs
  }

  /** From the end of the write loop to the end of the run. */
  lemma FinishRun(c: Ctx, d0: Disk, r: Run)
    requires Start(c, d0) && Passes(c, d0) && c.PhaseDone(Update, r.disk.dirs) && r.outcome == Ok
    requires GetState(r.disk.magic) == UpdatingSb && SbBegun(c, d0, r.disk)
    requires forall k | 0 <= k < |r.disk.supers| :: CopyFinal(c, d0, r.disk, k)
    ensures var r' := SetState(r, Unset);
            SbOutcome(c, d0, r, r') && r'.disk.descs == r.disk.descs
            && Plain(r'.disk.supers[0]) == Plain(r.disk.supers[0])
  {
    SetStateBody(r, Unset);
    StateRoundTrip(Unset);
    var r' := SetState(r, Unset);
    BodySupers(r'.disk, r.disk);
    forall i | 0 < i < |r.disk.supers| ensures r'.disk.supers[i] == r.disk.supers[i] {
      assert Body(r'.disk).supers[i] == Body(r.disk).supers[i];
    }
    SameCopies(c, d0, r.disk, r'.disk);
  }

  lemma SameCopies(c: Ctx, d0: Disk, d: Disk, d': Disk)
    requires Start(c, d0) && SbBegun(c, d0, d)
    requires |d'.supers| == |d.supers| && d'.descs == d.descs && d'.bitmaps == d.bitmaps
    requires Plain(d'.supers[0]) == Plain(d.supers[0])
    requires forall i | 0 < i < |d.supers| :: d'.supers[i] == d.supers[i]
    ensures SbBegun(c, d0, d')
    ensures forall k | 0 <= k < |d.supers| && CopyFinal(c, d0, d, k) :: CopyFinal(c, d0, d', k)
  {
    forall i | 0 < i < |d'.supers| ensures CopyBetween(c, d0, d', i) {
      assert CopyBetween(c, d0, d, i);
    }
  }

  predicate OneWriteLeft(r: Run) { r.outcome == Ok && r.budget == 1 }

  /** What the first run to reach the superblocks leaves in the primary ones. */
  ghost predicate FirstPrimary(c: Ctx, d0: Disk, r: Run, r': Run)
    requires Start(c, d0)
  {
    && |r'.disk.supers| > 0 && |r'.disk.descs| > 0
    && if OneWriteLeft(BitmapPass(r, c.ipg, c.npg, 0))
       then r'.outcome == Stopped && Plain(r'.disk.supers[0]) == FinalSuper(c, d0)
            && r'.disk.descs[0] == d0.descs[0]
       else Plain(r'.disk.supers[0]) == Plain(d0.supers[0]) || r'.disk.descs[0] == FinalCounts(c, d0)
  }

  lemma FirstUpdate(c: Ctx, d0: Disk, r: Run)
    requires Start(c, d0) && r.outcome == Ok && Inv(c, d0, r.disk)
    requires GetState(r.disk.magic) == UpdatingSb && SbWaiting(c, d0, r.disk)
    ensures |r.disk.supers| == |r.disk.descs| == |c.vol.hasSuper|
    ensures var r' := UpdateSuperblocks(c.vol, r, c.ipg, c.npg, d0.descs[0]);
            SbStep(c, d0, r.(disk := BitmapPass(r, c.ipg, c.npg, 0).disk), r') && FirstPrimary(c, d0, r, r')
            && r'.disk.dirs == r.disk.dirs && r'.disk.magic == r.disk.magic
  {
    hide SuperPass, GrownCounts, AlignUp, Ctx.PhaseDone, Ctx.PhaseInv, Ctx.Tree, Ctx.Sound;
    BeforeSbPrimary(c, d0, r.disk);
    BitmapPassFinishes(c, d0, r, c.ipg, 0);
    var r1 := BitmapPass(r, c.ipg, c.npg, 0);
    if r1.outcome == Ok {
      var sb := r.disk.supers[0];
      assert Plain(GrownSuper(c.vol, sb, c.npg)) == FinalSuper(c, d0);
      FirstSuperPass(c, d0, r1, GrownSuper(c.vol, sb, c.npg));
    }
  }

  /** The superblock phase of the first run to reach it. */
  lemma FirstSuperPhase(c: Ctx, d0: Disk, r: Run)
    requires Start(c, d0) && r.outcome == Ok && Inv(c, d0, r.disk)
    requires GetState(r.disk.magic) == UpdatingSb && SbWaiting(c, d0, r.disk)
    ensures var r' := PhaseSuper(c.vol, c.ipg, c.npg, r, d0.descs[0]);
            SbOutcome(c, d0, r, r') && FirstPrimary(c, d0, r, r')
  {
    hide UpdateSuperblocks, BitmapPass, SetState, GrownCounts, AlignUp;
    hide Ctx.PhaseDone, Ctx.PhaseInv, Ctx.Tree, Ctx.Sound, CopyBetween, BitsFinal, BitsBetween;
    FirstUpdate(c, d0, r);
    var r2 := UpdateSuperblocks(c.vol, r, c.ipg, c.npg, d0.descs[0]);
    if r2.outcome == Ok {
      FinishRun(c, d0, r2);
    }
  }

  /** The superblock phase of a run that finds the primary superblock already written. */
  lemma LaterSuperPhase(c: Ctx, d0: Disk, r: Run)
    requires Start(c, d0) && r.outcome == Ok && Inv(c, d0, r.disk)
    requires GetState(r.disk.magic) == UpdatingSb && SbBegun(c, d0, r.disk)
    ensures var r' := PhaseSuper(c.vol, c.npg, c.npg, r, r.disk.descs[0]);
            && SbOutcome(c, d0, r, r') && r'.disk.descs[0] == r.disk.descs[0]
            && Plain(r'.disk.supers[0]) == Plain(r.disk.supers[0])
  {
    BitmapPassFinishes(c, d0, r, c.npg, 0);
    GrownChecks(c, d0, r.disk.supers[0]);
    CountsSettled(c, d0, r.disk);
    LaterSuperPass(c, d0, r, r.disk.supers[0]);
    var r2 := SuperPass(c.vol, r, r.disk.supers[0], r.disk.descs[0], 0);
    assert UpdateSuperblocks(c.vol, r, c.npg, c.npg, r.disk.descs[0]) == r2;
    if r2.outcome == Ok {
      FinishRun(c, d0, r2);
    }
  }

  // ----- One run

  lemma RootPlace(c: Ctx)
    requires c.Tree()
    ensures PosOf(c.npg, ROOT_INO) == c.Root()
  {
    PlaceOf(c.ipg, ROOT_INO);
    PlaceOf(c.npg, ROOT_INO);
  }

  lemma NewSizeIsStable(c: Ctx, d0: Disk)
    requires Start(c, d0)
    ensures AlignUp(c.npg, c.vol.inodesPerBlock) == c.npg
  {
    AlignUpBounds(c.ipg, c.vol.inodesPerBlock);
    AlignUpBounds(c.npg, c.vol.inodesPerBlock);
  }

  /** A run that finds the last state goes straight to the superblock phase. */
  lemma NothingBeforeSuper(vol: Volume, ipg: nat, npg: nat, d: Disk, budget: nat, depth: nat)
    requires ipg > 0 && |d.supers| > 0 && vol.inodesPerBlock > 0 && GetState(d.magic) == UpdatingSb
    ensures BeforeSuper(vol, ipg, npg, d, budget, depth) == Run(d, budget, Ok)
  {
  }

  /** One run, stopped anywhere, from any disk the tool may find. It fails only when the sanity pass
      rejects the filesystem, and then writes nothing; if it is not stopped, the work is done. */
  lemma OneRun(c: Ctx, d0: Disk, d: Disk, budget: nat, depth: nat)
    requires Start(c, d0) && depth > c.rank[c.Root()] && Inv(c, d0, d)
    ensures var r := Fixup(c.vol, d, budget, depth);
            if GetState(d.magic) == Unset && !Passes(c, d0) then r == Run(d, budget, Failed)
            else
              && r.outcome != Failed && (r.outcome == Stopped ==> r.budget == 0)
              && (Inv(c, d0, r.disk) || Finished(c, d0, r.disk))
              && (r.outcome == Ok ==>
                    Finished(c, d0, r.disk) && r.disk.magic == 0 && !r.disk.supers[0].descSizeLowBit)
  {
    if BeforeSb(c, d0, d) {
      BeforeSbPrimary(c, d0, d);
      assert d.supers[0].inodesPerGroup == c.ipg;
      BeforeSuperOnWay(c, d0, d, budget, depth);
      var r1 := BeforeSuper(c.vol, c.ipg, c.npg, d, budget, depth);
      if r1.outcome == Ok {
        FirstSuperPhase(c, d0, r1);
      }
    } else {
      RootPlace(c);
      NewSizeIsStable(c, d0);
      NothingBeforeSuper(c.vol, c.npg, c.npg, d, budget, depth);
      LaterSuperPhase(c, d0, Run(d, budget, Ok));
    }
  }
}
