/** The renumbering tool as it runs: a device that is written in place, loops over buffers, and a
    recursion over directories. Each method is proved to do what the functions of FixupModel say. */
module FixupTool {
  import opened Common
  import opened FixupModel

  class Device {
    var disk: Disk
    var budget: nat

    constructor (d: Disk, writes: nat)
      ensures disk == d && budget == writes
    {
      disk, budget := d, writes;
    }

    function Now(o: Outcome): Run
      reads this
    {
      Run(disk, budget, o)
    }

    /** One write to the device, or the stop that comes instead of it. */
    method Put(d: Disk) returns (o: Outcome)
      modifies this
      ensures Now(o) == Write(old(Now(Ok)), d)
    {
      if budget == 0 {
        return Stopped;
      }
      disk, budget := d, budget - 1;
      o := Ok;
    }

    method PutState(state: FixupState) returns (o: Outcome)
      requires |disk.supers| > 0
      modifies this
      ensures Now(o) == SetState(old(Now(Ok)), state)
    {
      o := Put(disk.(magic := MagicOf(state)));
      if o == Ok {
        var sb := disk.supers[0].(descSizeLowBit := state != Unset);
        o := Put(disk.(supers := disk.supers[0 := sb]));
      }
    }

    method PutDir(blocks: seq<nat>, bufs: seq<seq<Entry>>) returns (o: Outcome)
      requires |bufs| == |blocks|
      modifies this
      ensures Now(o) == WriteDir(old(Now(Ok)), blocks, bufs, 0)
    {
      o := Ok;
      var i := 0;
      while i < |blocks|
        invariant i <= |blocks| && o == Ok
        invariant WriteDir(old(Now(Ok)), blocks, bufs, 0) == WriteDir(Now(Ok), blocks, bufs, i)
      {
        o := Put(disk.(dirs := disk.dirs[blocks[i] := bufs[i]]));
        if o != Ok {
          return;
        }
        i := i + 1;
      }
    }

    method Recurse(vol: Volume, ipg: nat, npg: nat, p: Pos, mode: Mode, depth: nat) returns (o: Outcome)
      requires ipg > 0
      modifies this
      ensures Now(o) == RecurseDir(vol, ipg, npg, old(Now(Ok)), p, mode, depth)
      decreases depth
    {
      if depth == 0 || p !in vol.inodes || !vol.inodes[p].isDir {
        return Failed;
      }
      var blocks := vol.inodes[p].blocks;
      if exists b | b in blocks :: b !in disk.dirs {
        return Failed;
      }
      var bufs := ReadDir(disk.dirs, blocks);
      ghost var whole := Walk(vol, ipg, npg, old(Now(Ok)), bufs, 0, 0, mode, depth);
      var i, j := 0, 0;
      while i < |bufs|
        invariant |bufs| == |blocks| && i <= |bufs|
        invariant whole == Walk(vol, ipg, npg, Now(Ok), bufs, i, j, mode, depth)
        decreases |bufs| - i, if i < |bufs| then |bufs[i]| - j else 0
      {
        if j >= |bufs[i]| {
          i, j := i + 1, 0;
        } else {
          var e := bufs[i][j];
          if e.inode == 0 {
            break;
          }
          var isDir := IsEntryDir(vol, ipg, e, mode);
          if isDir == None {
            return Failed;
          }
          if Descends(isDir.value, e, mode) {
            o := Recurse(vol, ipg, npg, PosOf(ipg, ClearMark(e.inode)), mode, depth - 1);
            if o != Ok {
              return;
            }
          }
          bufs := bufs[i := bufs[i][j := ProcessEntry(mode, ipg, npg, e)]];
          j := j + 1;
        }
      }
      assert whole == (Now(Ok), bufs);
      if mode == Sanity {
        return Ok;
      }
      o := PutDir(blocks, bufs);
    }

    method CheckInodeBitmaps(ipg: nat, npg: nat) returns (o: Outcome)
      modifies this
      ensures Now(o) == BitmapPass(old(Now(Ok)), ipg, npg, 0)
    {
      o := Ok;
      var i := 0;
      while i < |disk.bitmaps|
        invariant i <= |disk.bitmaps| == old(|disk.bitmaps|) && o == Ok
        invariant BitmapPass(old(Now(Ok)), ipg, npg, 0) == BitmapPass(Now(Ok), ipg, npg, i)
        decreases |disk.bitmaps| - i
      {
        var cleared := ClearBits(disk.bitmaps[i], ipg, npg);
        if cleared != disk.bitmaps[i] {
          o := Put(disk.(bitmaps := disk.bitmaps[i := cleared]));
          if o != Ok {
            return;
          }
        }
        i := i + 1;
      }
    }

    method UpdateSuperblocksAndDescs(vol: Volume, ipg: nat, npg: nat, counts: seq<nat>) returns (o: Outcome)
      requires |disk.supers| == |disk.descs| == |vol.hasSuper| > 0 && vol.inodesPerBlock > 0
      modifies this
      ensures Now(o) == UpdateSuperblocks(vol, old(Now(Ok)), ipg, npg, counts)
    {
      var sb := disk.supers[0];
      o := CheckInodeBitmaps(ipg, npg);
      if o != Ok {
        return;
      }
      if !ChecksPass(vol, sb, npg) {
        return Failed;
      }
      var grown := GrownCounts(counts, npg - sb.inodesPerGroup);
      sb := GrownSuper(vol, sb, npg);
      ghost var whole := SuperPass(vol, Now(Ok), sb, grown, 0);
      var i := 0;
      while i < |vol.hasSuper|
        invariant i <= |vol.hasSuper| == |disk.supers| == |disk.descs| && o == Ok
        invariant whole == SuperPass(vol, Now(Ok), sb, grown, i)
        decreases |vol.hasSuper| - i
      {
        if vol.hasSuper[i] {
          if i != 0 {
            sb := sb.(descSizeLowBit := false);
          }
          o := Put(disk.(supers := disk.supers[i := sb]));
          if o != Ok {
            return;
          }
          o := Put(disk.(descs := disk.descs[i := grown]));
          if o != Ok {
            return;
          }
        }
        i := i + 1;
      }
    }

    /** ext4fixup_internal. */
    method Ext4Fixup(vol: Volume, depth: nat) returns (o: Outcome)
      modifies this
      ensures Now(o) == Fixup(vol, old(disk), old(budget), depth)
    {
      if |disk.supers| == 0 || |disk.descs| == 0 || vol.inodesPerBlock == 0 {
        return Failed;
      }
      var ipg := disk.supers[0].inodesPerGroup;
      if ipg == 0 {
        return Failed;
      }
      var npg := AlignUp(ipg, vol.inodesPerBlock);
      var counts := disk.descs[0];
      var root := PosOf(ipg, ROOT_INO);
      if root !in vol.inodes || !vol.inodes[root].isDir {
        return Failed;
      }
      o := Ok;
      if GetState(disk.magic) == Unset {
        o := SanityPhase(vol, ipg, npg, depth);
      }
      if o == Ok && GetState(disk.magic) == MarkingInums {
        o := WalkPhase(vol, ipg, npg, depth, Mark, MarkingInums, UpdatingInums);
      }
      if o == Ok && GetState(disk.magic) == UpdatingInums {
        o := WalkPhase(vol, ipg, npg, depth, Update, UpdatingInums, UpdatingSb);
      }
      assert Now(o) == BeforeSuper(vol, ipg, npg, old(disk), old(budget), depth);
      if o == Ok && GetState(disk.magic) == UpdatingSb {
        if !(|disk.supers| == |disk.descs| == |vol.hasSuper| > 0) {
          return Failed;
        }
        o := UpdateSuperblocksAndDescs(vol, ipg, npg, counts);
        if o == Ok && |disk.supers| > 0 {
          o := PutState(Unset);
        }
      }
    }

    method SanityPhase(vol: Volume, ipg: nat, npg: nat, depth: nat) returns (o: Outcome)
      requires ipg > 0 && |disk.supers| > 0 && vol.inodesPerBlock > 0 && GetState(disk.magic) == Unset
      modifies this
      ensures Now(o) == PhaseUnset(vol, ipg, npg, old(Now(Ok)), depth)
    {
      o := Recurse(vol, ipg, npg, PosOf(ipg, ROOT_INO), Sanity, depth);
      SanityWritesNothing(vol, ipg, npg, old(Now(Ok)), PosOf(ipg, ROOT_INO), depth);
      if o != Ok {
        return;
      }
      if !ChecksPass(vol, disk.supers[0], npg) {
        return Failed;
      }
      o := PutState(MarkingInums);
    }

    method WalkPhase(vol: Volume, ipg: nat, npg: nat, depth: nat, mode: Mode,
                     from: FixupState, to: FixupState) returns (o: Outcome)
      requires ipg > 0 && GetState(disk.magic) == from
      modifies this
      ensures Now(o) == PhaseWalk(vol, ipg, npg, old(Now(Ok)), depth, mode, from, to)
    {
      o := Recurse(vol, ipg, npg, PosOf(ipg, ROOT_INO), mode, depth);
      if o == Ok && |disk.supers| > 0 {
        o := PutState(to);
      }
    }
  }

  /** The sanity pass leaves the device alone, whatever is on it. */
  lemma {:induction false} SanityWritesNothing(vol: Volume, ipg: nat, npg: nat, r: Run, p: Pos, depth: nat)
    requires ipg > 0
    ensures var r' := RecurseDir(vol, ipg, npg, r, p, Sanity, depth);
            r'.disk == r.disk && r'.budget == r.budget
    decreases depth, 1, 0, 0
  {
    if depth > 0 && p in vol.inodes && vol.inodes[p].isDir {
      var blocks := vol.inodes[p].blocks;
      if forall b | b in blocks :: b in r.disk.dirs {
        SanityWalkWritesNothing(vol, ipg, npg, r, ReadDir(r.disk.dirs, blocks), 0, 0, depth);
      }
    }
  }

  lemma {:induction false} SanityWalkWritesNothing(vol: Volume, ipg: nat, npg: nat, r: Run, bufs: seq<seq<Entry>>,
                                                   i: nat, j: nat, depth: nat)
    requires ipg > 0 && depth > 0
    ensures var r' := Walk(vol, ipg, npg, r, bufs, i, j, Sanity, depth).0;
            r'.disk == r.disk && r'.budget == r.budget
    decreases depth, 0, |bufs| - i, if i < |bufs| then |bufs[i]| - j else 0
  {
    if i < |bufs| {
      if j >= |bufs[i]| {
        SanityWalkWritesNothing(vol, ipg, npg, r, bufs, i + 1, 0, depth);
      } else {
        var e := bufs[i][j];
        var isDir := IsEntryDir(vol, ipg, e, Sanity);
        if e.inode != 0 && isDir.Some? {
          var q := PosOf(ipg, ClearMark(e.inode));
          var r1 := r;
          if Descends(isDir.value, e, Sanity) {
            SanityWritesNothing(vol, ipg, npg, r, q, depth - 1);
            r1 := RecurseDir(vol, ipg, npg, r, q, Sanity, depth - 1);
          }
          if r1.outcome == Ok {
            var bufs1 := bufs[i := bufs[i][j := ProcessEntry(Sanity, ipg, npg, e)]];
            SanityWalkWritesNothing(vol, ipg, npg, r1, bufs1, i, j + 1, depth);
          }
        }
      }
    }
  }
}
