/** A filesystem with one group and one directory: what is on the disk after each of the twelve writes of the
    tool, and how a stop between the primary superblock and the primary descriptors loses the growth of the
    free inode counts for good. */
module FixupExample {
  import opened FixupModel
  import opened FixupPhases
  import opened FixupRuns
  import opened FixupSuper
  import opened FixupTheorems

  const ROOT_PLACE := Pos(0, 1)

  const VOLUME := Volume(map[ROOT_PLACE := Inode(true, [0])], 1, [true], 4)

  /** The entries of the root directory when both carry the number `n`. */
  function Dots(n: nat): seq<Entry> { [Entry(n, ".", Directory), Entry(n, "..", Directory)] }

  /** The disk after `k` writes: the state word, the bit that keeps it from being mounted, the marks, the
      numbers, the superblock and the descriptors, in that order. */
  function Snapshot(k: nat): Disk {
    Disk(if k == 0 then 0 else if k < 4 then 0x7000151515565512 else if k < 7 then 0x6121131211735123
         else if k < 11 then 0x15e1715151558477 else 0,
         map[0 := Dots(if 3 <= k < 6 then 0x8000_0002 else 2)],
         [if k < 9 then Superblock(2, 2, 0, k >= 2) else Superblock(4, 4, 2, k < 12)],
         [[if k < 10 then 0 else 2]], [])
  }

  const DISK := Disk(0, map[0 := Dots(2)], [Superblock(2, 2, 0, false)], [[0]], [])

  const CONTEXT := Ctx(VOLUME, 2, 4, DISK.dirs, map[ROOT_PLACE := 0])

  lemma MeetsStart()
    ensures Start(CONTEXT, DISK) && CountsMove(CONTEXT, DISK) && CONTEXT.Root() == ROOT_PLACE
  {
    assert CONTEXT.Root() == ROOT_PLACE;
    assert CONTEXT.Shape() && CONTEXT.BlocksDistinct();
    assert CONTEXT.NumbersValid() && CONTEXT.Acyclic() && CONTEXT.Reachable();
  }

  /** The run after `b` of the `n` writes of a phase that begins at snapshot `k`. */
  function Advanced(k: nat, n: nat, b: nat): Run {
    if b >= n then Run(Snapshot(k + n), b - n, Ok) else Run(Snapshot(k + b), 0, Stopped)
  }

  /** A pass over the root directory costs one write, or none when it only looks. */
  lemma OnePass(r: Run, n: nat, n': nat, mode: Mode)
    requires r.disk.dirs == map[0 := Dots(n)] && n != 0 && r.outcome == Ok
    requires n' == ProcessEntry(mode, 2, 4, Entry(n, ".", Directory)).inode
    ensures RecurseDir(VOLUME, 2, 4, r, ROOT_PLACE, mode, 1) ==
            if mode == Sanity then r
            else if r.budget == 0 then r.(outcome := Stopped)
            else Run(r.disk.(dirs := map[0 := Dots(n')]), r.budget - 1, Ok)
  {
    var bufs := ReadDir(r.disk.dirs, [0]);
    assert bufs == [Dots(n)];
    var one := bufs[0 := bufs[0][0 := Entry(n', ".", Directory)]];
    var two := one[0 := one[0][1 := Entry(n', "..", Directory)]];
    assert one[0] == [Entry(n', ".", Directory), Entry(n, "..", Directory)];
    assert two[0] == Dots(n') && two == [Dots(n')];
    assert Walk(VOLUME, 2, 4, r, two, 0, 2, mode, 1) == (r, two);
    assert Walk(VOLUME, 2, 4, r, one, 0, 1, mode, 1) == (r, two);
    assert Walk(VOLUME, 2, 4, r, bufs, 0, 0, mode, 1) == (r, two);
    assert r.disk.dirs[0 := Dots(n')] == map[0 := Dots(n')];
  }

  /** Entering a state costs two writes, the word first. */
  lemma EnterState(d: Disk, sb: Superblock, budget: nat, state: FixupState)
    requires d.supers == [sb]
    ensures var word := d.(magic := MagicOf(state));
            SetState(Run(d, budget, Ok), state) ==
            if budget == 0 then Run(d, 0, Stopped)
            else if budget == 1 then Run(word, 0, Stopped)
            else Run(word.(supers := [sb.(descSizeLowBit := state != Unset)]), budget - 2, Ok)
  {
  }

  lemma Begins(b: nat)
    ensures PhaseUnset(VOLUME, 2, 4, Run(DISK, b, Ok), 1) == Advanced(0, 2, b)
  {
    hide RecurseDir, SetState, ChecksPass;
    OnePass(Run(DISK, b, Ok), 2, 2, Sanity);
    ChecksHold(VOLUME, DISK.supers[0]);
    EnterState(DISK, Superblock(2, 2, 0, false), b, MarkingInums);
  }

  lemma ChecksHold(vol: Volume, sb: Superblock)
    requires vol.groups == 1 && vol.inodesPerBlock == 4 && sb.inodesPerGroup == sb.inodesCount == 2
    ensures ChecksPass(vol, sb, 4)
  {
  }

  lemma Marks(b: nat)
    ensures PhaseWalk(VOLUME, 2, 4, Run(Snapshot(2), b, Ok), 1, Mark, MarkingInums, UpdatingInums) == Advanced(2, 3, b)
  {
    hide RecurseDir, SetState;
    OnePass(Run(Snapshot(2), b, Ok), 2, 0x8000_0002, Mark);
    if b > 0 {
      EnterState(Snapshot(3), Snapshot(3).supers[0], b - 1, UpdatingInums);
    }
  }

  lemma Updates(b: nat)
    ensures PhaseWalk(VOLUME, 2, 4, Run(Snapshot(5), b, Ok), 1, Update, UpdatingInums, UpdatingSb) == Advanced(5, 3, b)
  {
    hide RecurseDir, SetState;
    OnePass(Run(Snapshot(5), b, Ok), 0x8000_0002, 2, Update);
    if b > 0 {
      EnterState(Snapshot(6), Snapshot(6).supers[0], b - 1, UpdatingSb);
    }
  }

  /** The superblock loop is reached after eight writes. */
  lemma ReachesSuperblocks(b: nat)
    ensures BeforeSuper(VOLUME, 2, 4, DISK, b, 1) == Advanced(0, 8, b)
  {
    hide PhaseUnset, RecurseDir, SetState, Snapshot;
    Begins(b);
    if b >= 2 {
      Marks(b - 2);
      if b >= 5 {
        Updates(b - 5);
      } else {
        StatesOf();
      }
    }
  }

  lemma StatesOf()
    ensures GetState(Snapshot(8).magic) == UpdatingSb
  {
  }

  /** The write loop of a single group. */
  lemma OneGroup(vol: Volume, r: Run, sb: Superblock, counts: seq<nat>)
    requires vol.hasSuper == [true] && |r.disk.supers| == |r.disk.descs| == 1 && r.outcome == Ok
    ensures var one := r.disk.(supers := [sb]);
            SuperPass(vol, r, sb, counts, 0) ==
            if r.budget == 0 then r.(outcome := Stopped)
            else if r.budget == 1 then Run(one, 0, Stopped)
            else Run(one.(descs := [counts]), r.budget - 2, Ok)
  {
    assert r.disk.supers[0 := sb] == [sb] && r.disk.descs[0 := counts] == [counts];
  }

  lemma Loop(r: Run)
    requires r == Run(Snapshot(8), r.budget, Ok)
    ensures BitmapPass(r, 2, 4, 0) == r
    ensures UpdateSuperblocks(VOLUME, r, 2, 4, [0]) == Advanced(8, 2, r.budget)
  {
    hide SuperPass, ChecksPass;
    ChecksHold(VOLUME, r.disk.supers[0]);
    assert GrownCounts([0], 2) == [2];
    OneGroup(VOLUME, r, Superblock(4, 4, 2, true), [2]);
  }

  /** The disk after every number of writes. */
  lemma EveryWrite(b: nat)
    ensures Fixup(VOLUME, DISK, b, 1) == Advanced(0, 12, b)
  {
    hide BeforeSuper, UpdateSuperblocks, SetState;
    ReachesSuperblocks(b);
    if b >= 8 {
      Loop(Run(Snapshot(8), b - 8, Ok));
      if b >= 10 {
        EnterState(Snapshot(10), Snapshot(10).supers[0], b - 10, Unset);
      }
    }
  }

  /** With nine writes, the last one is the primary superblock. */
  lemma FirstRun(b: nat)
    requires b == 9
    ensures StopsBetween(CONTEXT, DISK, b, 1) && Fixup(VOLUME, DISK, b, 1) == Run(TORN, 0, Stopped)
  {
    hide BeforeSuper, BitmapPass, Fixup;
    EveryWrite(b);
    ReachesSuperblocks(b);
    Loop(Run(Snapshot(8), 1, Ok));
  }

  /** The disk the first run leaves: the superblock has grown, the descriptors have not. */
  const TORN := Snapshot(9)

  const DONE := DISK.(supers := [Superblock(4, 4, 2, false)])

  lemma SecondLoop(r: Run)
    requires r == Run(TORN, 4, Ok)
    ensures UpdateSuperblocks(VOLUME, r, 4, 4, [0]) == Run(TORN, 2, Ok)
  {
    var sb := Superblock(4, 4, 2, true);
    assert GrownCounts([0], 0) == [0] && [sb][0 := sb] == [sb] && [[0]][0 := [0]] == [[0]];
    assert SuperPass(VOLUME, r, sb, [0], 0) == Run(TORN, 2, Ok);
  }

  lemma SecondRun(b: nat)
    requires b == 4
    ensures Fixup(VOLUME, TORN, b, 1) == Run(DONE, 0, Ok)
  {
    hide BeforeSuper, UpdateSuperblocks, SetState;
    NothingBeforeSuper(VOLUME, 4, 4, TORN, b, 1);
    SecondLoop(Run(TORN, b, Ok));
    EnterState(TORN, TORN.supers[0], 2, Unset);
  }

  lemma TwoRuns()
    ensures AfterRuns(VOLUME, DISK, [9], 1) == TORN && AfterRuns(VOLUME, DISK, [9, 4], 1) == DONE
  {
    hide Fixup;
    FirstRun(9);
    SecondRun(4);
    assert [9, 4][1..] == [4];
  }

  lemma FirstStops()
    ensures StopsAt(CONTEXT, DISK, [9, 4], 0, 1)
  {
    hide StopsBetween;
    FirstRun(9);
    assert [9, 4][..0] == [];
  }

  /** Two runs, the first stopped after nine writes, finish the work with the counts of before. */
  lemma CountsMissedExample()
    ensures Start(CONTEXT, DISK) && StopsAt(CONTEXT, DISK, [9, 4], 0, 1)
    ensures var d := AfterRuns(VOLUME, DISK, [9, 4], 1);
            Finished(CONTEXT, DISK, d) && d.descs[0] == [0] && FinalCounts(CONTEXT, DISK) == [2]
  {
    hide Fixup, Finished, Start, StopsAt, AfterRuns, Passes, RenumberedOnce, PosOf;
    MeetsStart();
    FirstStops();
    TwoRuns();
    SecondRun(4);
    assert CONTEXT.rank[ROOT_PLACE] == 0;
    UnstoppedRunCompletes(CONTEXT, DISK, [9], 4, 1);
  }
}
