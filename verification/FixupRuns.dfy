/** Any number of runs of the renumbering tool, each stopped at any write. */
module FixupRuns {
  import opened Common
  import opened FixupModel
  import opened FixupPhases
  import opened FixupCrash

  /** The superblock without the bit that keeps the filesystem from being mounted. */
  function Plain(sb: Superblock): Superblock { sb.(descSizeLowBit := false) }

  /** The disk without the state word and that bit. */
  function Body(d: Disk): Disk
    requires |d.supers| > 0
  {
    d.(magic := 0, supers := d.supers[0 := Plain(d.supers[0])])
  }

  /** Disk `d0` holds the filesystem `c`, and no work on it has begun. */
  ghost predicate Start(c: Ctx, d0: Disk) {
    && c.Tree() && c.dirs0 == d0.dirs && GetState(d0.magic) == Unset
    && |d0.supers| == |d0.descs| == |c.vol.hasSuper| > 0 && c.vol.hasSuper[0]
    && c.vol.inodesPerBlock > 0
    && d0.supers[0].inodesPerGroup == c.ipg && c.npg == AlignUp(c.ipg, c.vol.inodesPerBlock)
    && (forall k | 0 <= k < |d0.descs[0]| :: d0.descs[0][k] < TWO_16)
  }

  /** The sanity pass lets the work begin. */
  ghost predicate Passes(c: Ctx, d0: Disk)
    requires Start(c, d0)
  {
    c.Sound() && ChecksPass(c.vol, d0.supers[0], c.npg)
  }

  // ----- What the superblock phase aims at

  function FinalSuper(c: Ctx, d0: Disk): Superblock
    requires |d0.supers| > 0 && d0.supers[0].inodesPerGroup <= c.npg
  {
    Plain(GrownSuper(c.vol, d0.supers[0], c.npg))
  }

  function FinalCounts(c: Ctx, d0: Disk): seq<nat>
    requires |d0.descs| > 0 && c.ipg <= c.npg
  {
    GrownCounts(d0.descs[0], c.npg - c.ipg)
  }

  ghost predicate BitsBetween(c: Ctx, d0: Disk, d: Disk) {
    && |d.bitmaps| == |d0.bitmaps|
    && forall i | 0 <= i < |d0.bitmaps| ::
         d.bitmaps[i] == d0.bitmaps[i] || d.bitmaps[i] == ClearBits(d0.bitmaps[i], c.ipg, c.npg)
  }

  ghost predicate BitsFinal(c: Ctx, d0: Disk, d: Disk) {
    && |d.bitmaps| == |d0.bitmaps|
    && forall i | 0 <= i < |d0.bitmaps| :: d.bitmaps[i] == ClearBits(d0.bitmaps[i], c.ipg, c.npg)
  }

  /** Copy `i` of the superblock and of the descriptors has been written. */
  ghost predicate CopyFinal(c: Ctx, d0: Disk, d: Disk, i: int)
    requires Start(c, d0) && |d.supers| == |d.descs| == |d0.supers| && 0 <= i < |d.supers|
  {
    if c.vol.hasSuper[i] then
      && (if i == 0 then Plain(d.supers[i]) else d.supers[i]) == FinalSuper(c, d0)
      && d.descs[i] == d.descs[0]
    else d.supers[i] == d0.supers[i] && d.descs[i] == d0.descs[i]
  }

  ghost predicate CopyBetween(c: Ctx, d0: Disk, d: Disk, i: int)
    requires Start(c, d0) && |d.supers| == |d.descs| == |d0.supers| && 0 < i < |d.supers|
  {
    && (d.supers[i] == d0.supers[i] || (c.vol.hasSuper[i] && d.supers[i] == FinalSuper(c, d0)))
    && (d.descs[i] == d0.descs[i] || (c.vol.hasSuper[i] && d.descs[i] == d.descs[0]))
  }

  /** The primary superblock has not been written. */
  ghost predicate SbWaiting(c: Ctx, d0: Disk, d: Disk)
    requires Start(c, d0)
  {
    && |d.supers| > 0 && d.supers[0 := Plain(d.supers[0])] == d0.supers[0 := Plain(d0.supers[0])]
    && d.descs == d0.descs && BitsBetween(c, d0, d)
  }

  /** The primary superblock has been written. The primary descriptors hold either the grown counts
      or, if a run stopped right after that write, still the old ones. */
  ghost predicate SbBegun(c: Ctx, d0: Disk, d: Disk)
    requires Start(c, d0)
  {
    && |d.supers| == |d.descs| == |d0.supers|
    && Plain(d.supers[0]) == FinalSuper(c, d0)
    && (d.descs[0] == d0.descs[0] || d.descs[0] == FinalCounts(c, d0))
    && BitsFinal(c, d0, d)
    && forall i | 0 < i < |d.supers| :: CopyBetween(c, d0, d, i)
  }

  /** The work is done: every entry renumbered, every copy written. */
  ghost predicate Finished(c: Ctx, d0: Disk, d: Disk)
    requires Start(c, d0)
  {
    && GetState(d.magic) == Unset && Passes(c, d0)
    && c.PhaseDone(Update, d.dirs)
    && SbBegun(c, d0, d)
    && forall i | 0 <= i < |d.supers| :: CopyFinal(c, d0, d, i)
  }

  /** What holds on the disk at every moment, by the state word, until the work is done. */
  ghost predicate Inv(c: Ctx, d0: Disk, d: Disk)
    requires Start(c, d0)
  {
    && |d.supers| == |d.descs| == |d0.supers|
    && match GetState(d.magic)
       case Unset => Body(d) == Body(d0)
       case MarkingInums =>
         Passes(c, d0) && Body(d).(dirs := d0.dirs) == Body(d0) && c.PhaseInv(Mark, d.dirs)
       case UpdatingInums =>
         Passes(c, d0) && Body(d).(dirs := d0.dirs) == Body(d0) && c.PhaseInv(Update, d.dirs)
       case UpdatingSb =>
         Passes(c, d0) && c.PhaseDone(Update, d.dirs) && (SbWaiting(c, d0, d) || SbBegun(c, d0, d))
  }

  /** A run is on its way: it holds the invariant, has not failed, and stopped only for lack of
      writes. */
  ghost predicate OnWay(c: Ctx, d0: Disk, r: Run)
    requires Start(c, d0)
  {
    r.outcome != Failed && (r.outcome == Stopped ==> r.budget == 0) && Inv(c, d0, r.disk)
  }

  // ----- The directory phases

  /** The phases before the superblock phase start from here. */
  ghost predicate BeforeSb(c: Ctx, d0: Disk, d: Disk)
    requires Start(c, d0)
  {
    Inv(c, d0, d) && (GetState(d.magic) == UpdatingSb ==> SbWaiting(c, d0, d))
  }

  lemma BodySupers(a: Disk, b: Disk)
    requires |a.supers| > 0 && |b.supers| > 0 && Body(a) == Body(b)
    ensures Plain(a.supers[0]) == Plain(b.supers[0]) && a.dirs == b.dirs && a.descs == b.descs
    ensures a.bitmaps == b.bitmaps && |a.supers| == |b.supers|
    ensures a.supers[0 := Plain(a.supers[0])] == b.supers[0 := Plain(b.supers[0])]
  {
    assert Body(a).supers[0] == Plain(a.supers[0]) && Body(b).supers[0] == Plain(b.supers[0]);
  }

  lemma BeforeSbPrimary(c: Ctx, d0: Disk, d: Disk)
    requires Start(c, d0) && BeforeSb(c, d0, d)
    ensures Plain(d.supers[0]) == Plain(d0.supers[0]) && d.descs == d0.descs
  {
    match GetState(d.magic)
    case Unset => BodySupers(d, d0);
    case MarkingInums => BodySupers(d.(dirs := d0.dirs), d0);
    case UpdatingInums => BodySupers(d.(dirs := d0.dirs), d0);
    case UpdatingSb =>
      assert d.supers[0 := Plain(d.supers[0])][0] == d0.supers[0 := Plain(d0.supers[0])][0];
  }

  /** Writing the state word and the mount bit leaves the rest of the disk alone. */
  lemma SetStateBody(r: Run, state: FixupState)
    requires |r.disk.supers| > 0 && r.outcome == Ok
    ensures var r' := SetState(r, state);
            && r'.outcome != Failed && (r'.outcome == Stopped ==> r'.budget == 0)
            && |r'.disk.supers| == |r.disk.supers| && Body(r'.disk) == Body(r.disk)
            && (r'.disk.magic == r.disk.magic || r'.disk.magic == MagicOf(state))
            && (r'.outcome == Ok ==>
                  r'.disk.magic == MagicOf(state) && r'.disk.supers[0].descSizeLowBit == (state != Unset))
            && (r'.disk.magic == r.disk.magic != MagicOf(state) ==> r'.disk == r.disk)
  {
    var r' := SetState(r, state);
    assert Body(r'.disk).supers == Body(r.disk).supers;
  }

  lemma StateRoundTrip(state: FixupState)
    ensures GetState(MagicOf(state)) == state
  {
  }

  lemma UnsetPhase(c: Ctx, d0: Disk, r: Run, depth: nat)
    requires Start(c, d0) && depth > c.rank[c.Root()] && r.outcome == Ok && BeforeSb(c, d0, r.disk)
    ensures var r' := PhaseUnset(c.vol, c.ipg, c.npg, r, depth);
            && (GetState(r.disk.magic) == Unset && !Passes(c, d0) ==> r' == r.(outcome := Failed))
            && (GetState(r.disk.magic) == Unset && Passes(c, d0) ==>
                  OnWay(c, d0, r') && BeforeSb(c, d0, r'.disk)
                  && (r'.outcome == Ok ==> GetState(r'.disk.magic) == MarkingInums))
            && (GetState(r.disk.magic) != Unset ==> r' == r)
  {
    if GetState(r.disk.magic) == Unset {
      BodySupers(r.disk, d0);
      SanityPassOnRoot(c, r, depth);
      assert Plain(r.disk.supers[0]) == Plain(d0.supers[0]);
      assert ChecksPass(c.vol, r.disk.supers[0], c.npg) == ChecksPass(c.vol, d0.supers[0], c.npg);
      if Passes(c, d0) {
        SetStateBody(r, MarkingInums);
        StateRoundTrip(MarkingInums);
        MarkingStarts(c);
        var r' := SetState(r, MarkingInums);
        BodySupers(r'.disk, r.disk);
      }
    }
  }

  lemma MarkPhase(c: Ctx, d0: Disk, r: Run, depth: nat)
    requires Start(c, d0) && depth > c.rank[c.Root()] && r.outcome == Ok && BeforeSb(c, d0, r.disk)
    requires GetState(r.disk.magic) == MarkingInums
    ensures var r' := PhaseWalk(c.vol, c.ipg, c.npg, r, depth, Mark, MarkingInums, UpdatingInums);
            && OnWay(c, d0, r') && BeforeSb(c, d0, r'.disk)
            && (r'.outcome == Ok ==> GetState(r'.disk.magic) == UpdatingInums)
  {
    RootPassFinishes(c, Mark, r, depth);
    var r1 := RecurseDir(c.vol, c.ipg, c.npg, r, c.Root(), Mark, depth);
    assert Body(r1.disk).(dirs := d0.dirs) == Body(d0);
    if r1.outcome == Ok {
      SetStateBody(r1, UpdatingInums);
      StateRoundTrip(UpdatingInums);
      UpdatingStarts(c, r1.disk.dirs);
      var r' := SetState(r1, UpdatingInums);
      BodySupers(r'.disk, r1.disk);
      assert Body(r'.disk).(dirs := d0.dirs) == Body(d0);
    }
  }

  lemma UpdatePhase(c: Ctx, d0: Disk, r: Run, depth: nat)
    requires Start(c, d0) && depth > c.rank[c.Root()] && r.outcome == Ok && BeforeSb(c, d0, r.disk)
    requires GetState(r.disk.magic) == UpdatingInums
    ensures var r' := PhaseWalk(c.vol, c.ipg, c.npg, r, depth, Update, UpdatingInums, UpdatingSb);
            && OnWay(c, d0, r') && BeforeSb(c, d0, r'.disk)
            && (r'.outcome == Ok ==> GetState(r'.disk.magic) == UpdatingSb)
  {
    RootPassFinishes(c, Update, r, depth);
    var r1 := RecurseDir(c.vol, c.ipg, c.npg, r, c.Root(), Update, depth);
    assert Body(r1.disk).(dirs := d0.dirs) == Body(d0);
    if r1.outcome == Ok {
      SetStateBody(r1, UpdatingSb);
      StateRoundTrip(UpdatingSb);
      var r' := SetState(r1, UpdatingSb);
      BodySupers(r'.disk, r1.disk);
      BodySupers(r'.disk.(dirs := d0.dirs), d0);
      assert Body(r'.disk).(dirs := d0.dirs) == Body(d0);
    }
  }

  /** The tool up to the superblock phase. */
  lemma BeforeSuperOnWay(c: Ctx, d0: Disk, d: Disk, budget: nat, depth: nat)
    requires Start(c, d0) && depth > c.rank[c.Root()] && BeforeSb(c, d0, d)
    ensures var r := BeforeSuper(c.vol, c.ipg, c.npg, d, budget, depth);
            if GetState(d.magic) == Unset && !Passes(c, d0) then r == Run(d, budget, Failed)
            else
              && OnWay(c, d0, r) && BeforeSb(c, d0, r.disk)
              && (r.outcome == Ok ==> GetState(r.disk.magic) == UpdatingSb)
  {
    var r := Run(d, budget, Ok);
    UnsetPhase(c, d0, r, depth);
    var r1 := PhaseUnset(c.vol, c.ipg, c.npg, r, depth);
    if r1.outcome == Ok {
      if GetState(r1.disk.magic) == MarkingInums {
        MarkPhase(c, d0, r1, depth);
      }
      var r2 := PhaseWalk(c.vol, c.ipg, c.npg, r1, depth, Mark, MarkingInums, UpdatingInums);
      if r2.outcome == Ok && GetState(r2.disk.magic) == UpdatingInums {
        UpdatePhase(c, d0, r2, depth);
      }
    }
  }
}
