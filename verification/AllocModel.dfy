/** The block allocator of ext4_utils/allocate.c, on the counters of the block groups: which group gives
    which blocks, and what stays true of them over whole runs. */
module AllocModel {
  import opened Common

  /** struct block_group_info, reduced to what the allocator decides by. `header` blocks at the start
      are never given out, and neither is anything from `limit` on. */
  datatype Group = Group(firstBlock: nat, header: nat, limit: nat, free: nat, firstFree: nat, used: nat)

  /** `len` blocks of group `bg`, from `block` of the device on. */
  datatype Region = Region(block: nat, len: nat, bg: nat)

  /** A group whose blocks are given out from the bottom: headers, allocated blocks, free blocks. */
  predicate Sound(g: Group, bpg: nat) {
    0 < g.header <= g.firstFree && g.firstFree + g.free == g.limit <= bpg
  }

  /** The groups of a filesystem, one behind the other; `total` blocks in all. */
  ghost predicate SoundAll(bgs: seq<Group>, bpg: nat, total: nat) {
    forall i | 0 <= i < |bgs| ::
      Sound(bgs[i], bpg) && bgs[i].firstBlock == i * bpg && bgs[i].firstBlock + bgs[i].limit <= total
  }

  // ----- Giving and taking back

  function Taken(g: Group, n: nat): Group
    requires n <= g.free
  {
    g.(free := g.free - n, firstFree := g.firstFree + n, used := g.used + n)
  }

  /** free_blocks; the count of used blocks is not reduced. */
  function Returned(g: Group, n: nat): Group
    requires n <= g.firstFree
  {
    g.(free := g.free + n, firstFree := g.firstFree - n)
  }

  /** The blocks group `i` gives next. */
  function NextRegion(bgs: seq<Group>, i: nat, n: nat): Region
    requires i < |bgs|
  {
    Region(bgs[i].firstBlock + bgs[i].firstFree, n, i)
  }

  /** The first group from `i` on with room for `n` blocks, or the number of groups. */
  function FirstFit(bgs: seq<Group>, n: nat, i: nat): (k: nat)
    requires i <= |bgs|
    ensures i <= k <= |bgs| && (k < |bgs| ==> bgs[k].free >= n)
    ensures forall j | i <= j < k :: bgs[j].free < n
    decreases |bgs| - i
  {
    if i == |bgs| || bgs[i].free >= n then i else FirstFit(bgs, n, i + 1)
  }

  /** The first group from `i` on that has given nothing yet, or the number of groups. */
  function FirstUnused(bgs: seq<Group>, i: nat): (k: nat)
    requires i <= |bgs|
    ensures i <= k <= |bgs| && (k < |bgs| ==> bgs[k].used == 0)
    ensures forall j | i <= j < k :: bgs[j].used != 0
    decreases |bgs| - i
  {
    if i == |bgs| || bgs[i].used == 0 then i else FirstUnused(bgs, i + 1)
  }

  datatype Gift = Gift(bgs: seq<Group>, region: Region)

  /** ext4_allocate_contiguous_blocks. */
  function Contiguous(bgs: seq<Group>, n: nat): Option<Gift> {
    var k := FirstFit(bgs, n, 0);
    if k == |bgs| then None else Some(Gift(bgs[k := Taken(bgs[k], n)], NextRegion(bgs, k, n)))
  }

  /** ext4_allocate_partial: the whole of an unused group, or the rest wherever it fits. */
  function Partial(bgs: seq<Group>, n: nat): Option<Gift> {
    var k := FirstUnused(bgs, 0);
    if k == |bgs| then None
    else if n <= bgs[k].free then Contiguous(bgs, n)
    else
      var all := bgs[k].free;
      Some(Gift(bgs[k := Taken(bgs[k], all)], NextRegion(bgs, k, all)))
  }

  // ----- When the loop ends

  /** The free blocks of the unused groups before group `k`. */
  function Unused(bgs: seq<Group>, k: nat): nat
    requires k <= |bgs|
  {
    if k == 0 then 0 else Unused(bgs, k - 1) + if bgs[k - 1].used == 0 then bgs[k - 1].free else 0
  }

  /** Some unused group has nothing to give, and the unused groups before it do not have `n` blocks. */
  predicate Stuck(bgs: seq<Group>, n: nat) {
    exists k | 0 <= k < |bgs| :: StuckAt(bgs, n, k)
  }

  predicate StuckAt(bgs: seq<Group>, n: nat, k: nat)
    requires k < |bgs|
  {
    bgs[k].used == 0 && bgs[k].free == 0 && Unused(bgs, k) < n
  }

  /** The loop of ext4_allocate_multiple_contiguous_blocks between two turns. */
  datatype Loop = Loop(bgs: seq<Group>, left: nat, failed: bool) {
    predicate Ended() { left == 0 || failed }

    /** One turn. */
    function Next(): Loop {
      if Ended() then this
      else
        var p := Partial(bgs, left);
        if p == None then Loop(bgs, left, true)
        else Loop(p.value.bgs, if p.value.region.len <= left then left - p.value.region.len else 0, false)
    }

    function After(turns: nat): Loop
      decreases turns
    {
      if turns == 0 then this else Next().After(turns - 1)
    }
  }

  lemma UnusedBefore(bgs: seq<Group>, k: nat)
    requires k <= FirstUnused(bgs, 0)
    ensures Unused(bgs, k) == 0
  {
  }

  /** Group `u` is used up: the unused groups behind it have that much less before them. */
  lemma {:induction false} UnusedAfter(bgs: seq<Group>, u: nat, k: nat)
    requires u < |bgs| && k <= |bgs| && bgs[u].used == 0 && bgs[u].free > 0
    ensures var now := bgs[u := Taken(bgs[u], bgs[u].free)];
            Unused(now, k) == Unused(bgs, k) - if u < k then bgs[u].free else 0
  {
    if k > 0 {
      UnusedAfter(bgs, u, k - 1);
    }
  }

  /** A turn that does not finish: nothing is given if and only if the group has nothing, and being stuck
      does not change. */
  lemma TurnKeepsStuck(bgs: seq<Group>, n: nat)
    requires n > 0 && FirstUnused(bgs, 0) < |bgs| && bgs[FirstUnused(bgs, 0)].free < n
    ensures var p := Partial(bgs, n);
            && p.Some? && p.value.region.len == bgs[FirstUnused(bgs, 0)].free
            && (Stuck(p.value.bgs, n - p.value.region.len) <==> Stuck(bgs, n))
  {
    hide Unused, Stuck;
    var u := FirstUnused(bgs, 0);
    if bgs[u].free == 0 {
      assert bgs[u := Taken(bgs[u], 0)] == bgs;
    } else {
      StuckAfter(bgs, u, n);
    }
  }

  lemma StuckAfter(bgs: seq<Group>, u: nat, n: nat)
    requires u == FirstUnused(bgs, 0) < |bgs| && 0 < bgs[u].free < n
    ensures Stuck(bgs[u := Taken(bgs[u], bgs[u].free)], n - bgs[u].free) <==> Stuck(bgs, n)
  {
    hide Unused, StuckAt;
    var f := bgs[u].free;
    var now := bgs[u := Taken(bgs[u], f)];
    forall k | 0 <= k < |bgs| ensures StuckAt(now, n - f, k) <==> StuckAt(bgs, n, k) {
      StuckAtAfter(bgs, u, n, k);
    }
    if Stuck(now, n - f) {
      var k :| 0 <= k < |now| && StuckAt(now, n - f, k);
      assert StuckAt(bgs, n, k);
    }
    if Stuck(bgs, n) {
      var k :| 0 <= k < |bgs| && StuckAt(bgs, n, k);
      assert StuckAt(now, n - f, k);
    }
  }

  lemma StuckAtAfter(bgs: seq<Group>, u: nat, n: nat, k: nat)
    requires u == FirstUnused(bgs, 0) < |bgs| && 0 < bgs[u].free < n && k < |bgs|
    ensures StuckAt(bgs[u := Taken(bgs[u], bgs[u].free)], n - bgs[u].free, k) <==> StuckAt(bgs, n, k)
  {
    hide Unused;
    UnusedAfter(bgs, u, k);
  }

  /** A partial allocation gives nothing if and only if the first unused group has nothing. */
  lemma PartialGivesNothingIff(bgs: seq<Group>, n: nat)
    requires n > 0 && Partial(bgs, n).Some?
    ensures FirstUnused(bgs, 0) < |bgs| && Partial(bgs, n).value.region.len <= n
    ensures Partial(bgs, n).value.region.len == 0 <==> bgs[FirstUnused(bgs, 0)].free == 0
  {
  }

  /** When the first unused group can give all that is left, nothing stands in the way. */
  lemma NotStuckAtTheEnd(bgs: seq<Group>, n: nat)
    requires n > 0 && FirstUnused(bgs, 0) < |bgs| && n <= bgs[FirstUnused(bgs, 0)].free
    ensures !Stuck(bgs, n)
  {
    var u := FirstUnused(bgs, 0);
    forall k | 0 <= k < |bgs| ensures !StuckAt(bgs, n, k) {
      if bgs[k].used == 0 && bgs[k].free == 0 {
        assert u < k;
        UnusedGrows(bgs, u + 1, k);
      }
    }
  }

  lemma {:induction false} UnusedGrows(bgs: seq<Group>, i: nat, k: nat)
    requires i <= k <= |bgs|
    ensures Unused(bgs, i) <= Unused(bgs, k)
  {
    if i < k {
      UnusedGrows(bgs, i, k - 1);
    }
  }

  lemma {:induction false} StuckNeverEnds(s: Loop, turns: nat)
    requires !s.failed && Stuck(s.bgs, s.left)
    ensures !s.After(turns).Ended()
    decreases turns
  {
    if turns > 0 {
      var u := FirstUnused(s.bgs, 0);
      assert u < |s.bgs|;
      if s.left <= s.bgs[u].free {
        NotStuckAtTheEnd(s.bgs, s.left);
      }
      TurnKeepsStuck(s.bgs, s.left);
      StuckNeverEnds(s.Next(), turns - 1);
    }
  }

  lemma {:induction false} FreeLoopEnds(s: Loop) returns (turns: nat)
    requires !Stuck(s.bgs, s.left)
    ensures s.After(turns).Ended()
    decreases s.left, !s.failed
  {
    if s.Ended() {
      turns := 0;
    } else if Partial(s.bgs, s.left).None? {
      turns := 1;
      assert s.Next().After(0).Ended();
    } else {
      var u := FirstUnused(s.bgs, 0);
      PartialGivesNothingIff(s.bgs, s.left);
      UnusedBefore(s.bgs, u);
      assert !StuckAt(s.bgs, s.left, u);
      if s.left <= s.bgs[u].free {
        turns := 1;
        assert s.Next().After(0).Ended();
      } else {
        TurnKeepsStuck(s.bgs, s.left);
        var more := FreeLoopEnds(s.Next());
        turns := more + 1;
      }
    }
  }

  predicate EndsWithin(s: Loop, turns: nat) { s.After(turns).Ended() }

  /** The loop ends if and only if no unused group without a free block stands before the blocks asked
      for. */
  lemma LoopEndsIff(s: Loop)
    requires !s.failed
    ensures (exists turns: nat :: EndsWithin(s, turns)) <==> !Stuck(s.bgs, s.left)
  {
    if Stuck(s.bgs, s.left) {
      forall turns: nat ensures !EndsWithin(s, turns) {
        StuckNeverEnds(s, turns);
      }
    } else {
      var turns := FreeLoopEnds(s);
      assert EndsWithin(s, turns);
    }
  }

  /** do_allocate ends: some group has room for all, or the loop ends. */
  predicate Ends(bgs: seq<Group>, n: nat) { FirstFit(bgs, n, 0) < |bgs| || !Stuck(bgs, n) }

  lemma AllocateEndsIff(bgs: seq<Group>, n: nat)
    ensures Contiguous(bgs, n).Some? || (exists turns: nat :: EndsWithin(Loop(bgs, n, false), turns)) <==> Ends(bgs, n)
  {
    hide Stuck, EndsWithin;
    LoopEndsIff(Loop(bgs, n, false));
  }

  /** The groups after ext4_allocate_multiple_contiguous_blocks, and the regions it made; a failure
      leaves the blocks of the earlier regions taken. */
  function Multiple(bgs: seq<Group>, n: nat, bpg: nat, total: nat): (r: (seq<Group>, Option<seq<Region>>))
    requires SoundAll(bgs, bpg, total) && !Stuck(bgs, n)
    ensures SoundAll(r.0, bpg, total) && |r.0| == |bgs|
    decreases n
  {
    if n == 0 then (bgs, Some([]))
    else
      var p := Partial(bgs, n);
      if p == None then (bgs, None)
      else
        PartialKeepsSound(bgs, n, bpg, total);
        var (bgs', rest) := Multiple(p.value.bgs, n - p.value.region.len, bpg, total);
        (bgs', if rest == None then None else Some([p.value.region] + rest.value))
  }

  /** do_allocate: in one piece if some group has room, otherwise in several. */
  function Allocate(bgs: seq<Group>, n: nat, bpg: nat, total: nat): (r: (seq<Group>, Option<seq<Region>>))
    requires SoundAll(bgs, bpg, total) && Ends(bgs, n)
    ensures SoundAll(r.0, bpg, total) && |r.0| == |bgs|
  {
    var c := Contiguous(bgs, n);
    if c.Some? then
      ContiguousKeepsSound(bgs, n, bpg, total);
      (c.value.bgs, Some([c.value.region]))
    else Multiple(bgs, n, bpg, total)
  }

  lemma TakenIsSound(bgs: seq<Group>, k: nat, n: nat, bpg: nat, total: nat)
    requires SoundAll(bgs, bpg, total) && k < |bgs| && n <= bgs[k].free
    ensures SoundAll(bgs[k := Taken(bgs[k], n)], bpg, total)
  {
    var now := bgs[k := Taken(bgs[k], n)];
    forall i | 0 <= i < |now|
      ensures Sound(now[i], bpg) && now[i].firstBlock == i * bpg && now[i].firstBlock + now[i].limit <= total
    {
      assert Sound(bgs[i], bpg);
    }
  }

  lemma ContiguousKeepsSound(bgs: seq<Group>, n: nat, bpg: nat, total: nat)
    requires SoundAll(bgs, bpg, total) && Contiguous(bgs, n).Some?
    ensures SoundAll(Contiguous(bgs, n).value.bgs, bpg, total)
  {
    var k := FirstFit(bgs, n, 0);
    assert Sound(bgs[k], bpg);
    TakenIsSound(bgs, k, n, bpg, total);
  }

  /** Every partial allocation takes at least one block and no more than asked for. */
  lemma PartialKeepsSound(bgs: seq<Group>, n: nat, bpg: nat, total: nat)
    requires SoundAll(bgs, bpg, total) && Partial(bgs, n).Some? && n > 0 && !Stuck(bgs, n)
    ensures SoundAll(Partial(bgs, n).value.bgs, bpg, total)
    ensures 0 < Partial(bgs, n).value.region.len <= n
    ensures !Stuck(Partial(bgs, n).value.bgs, n - Partial(bgs, n).value.region.len)
  {
    var k := FirstUnused(bgs, 0);
    assert Sound(bgs[k], bpg);
    UnusedBefore(bgs, k);
    assert !StuckAt(bgs, n, k);
    if n <= bgs[k].free {
      ContiguousKeepsSound(bgs, n, bpg, total);
      NothingLeft(Partial(bgs, n).value.bgs);
    } else {
      TakenIsSound(bgs, k, bgs[k].free, bpg, total);
      TurnKeepsStuck(bgs, n);
    }
  }

  lemma NothingLeft(bgs: seq<Group>)
    ensures !Stuck(bgs, 0)
  {
  }

  /** The function above is what the loop comes to. */
  lemma {:induction false} MultipleIsLoop(bgs: seq<Group>, n: nat, bpg: nat, total: nat) returns (turns: nat)
    requires SoundAll(bgs, bpg, total) && !Stuck(bgs, n)
    ensures var s := Loop(bgs, n, false).After(turns);
            var r := Multiple(bgs, n, bpg, total);
            s.Ended() && s.bgs == r.0 && (s.failed <==> r.1.None?)
    decreases n
  {
    hide SoundAll, Partial, Stuck;
    var s := Loop(bgs, n, false);
    if n == 0 {
      turns := 0;
    } else if Partial(bgs, n).None? {
      turns := 1;
      assert s.Next().After(0) == s.Next();
    } else {
      PartialKeepsSound(bgs, n, bpg, total);
      var p := Partial(bgs, n).value;
      var more := MultipleIsLoop(p.bgs, n - p.region.len, bpg, total);
      turns := more + 1;
    }
  }

  // ----- What live regions are like

  /** A region lies among the blocks its group has given out. */
  predicate Within(bgs: seq<Group>, r: Region) {
    && r.bg < |bgs|
    && bgs[r.bg].firstBlock + bgs[r.bg].header <= r.block
    && r.block + r.len <= bgs[r.bg].firstBlock + bgs[r.bg].firstFree
  }

  predicate Apart(a: Region, b: Region) { a.block + a.len <= b.block || b.block + b.len <= a.block }

  /** The live regions share no block. */
  ghost predicate Safe(bgs: seq<Group>, live: seq<Region>) {
    && (forall i | 0 <= i < |live| :: Within(bgs, live[i]))
    && (forall i, j {:trigger Apart(live[i], live[j])} | 0 <= i < j < |live| :: Apart(live[i], live[j]))
  }

  /** A new region from group `k` is apart from everything that has been given out. */
  lemma NewRegionIsApart(bgs: seq<Group>, bpg: nat, total: nat, k: nat, n: nat, r: Region)
    requires SoundAll(bgs, bpg, total) && k < |bgs| && n <= bgs[k].free && Within(bgs, r)
    ensures Apart(r, NextRegion(bgs, k, n))
    ensures Within(bgs[k := Taken(bgs[k], n)], r)
  {
    assert Sound(bgs[k], bpg) && Sound(bgs[r.bg], bpg);
    GroupsApart(k, r.bg, bpg);
    GroupsApart(r.bg, k, bpg);
  }

  lemma TakingKeepsSafe(bgs: seq<Group>, bpg: nat, total: nat, k: nat, n: nat, live: seq<Region>)
    requires SoundAll(bgs, bpg, total) && k < |bgs| && n <= bgs[k].free && Safe(bgs, live)
    ensures Safe(bgs[k := Taken(bgs[k], n)], live + [NextRegion(bgs, k, n)])
  {
    var now, r := bgs[k := Taken(bgs[k], n)], NextRegion(bgs, k, n);
    var all := live + [r];
    assert Sound(bgs[k], bpg);
    forall i | 0 <= i < |live| ensures Apart(live[i], r) && Within(now, live[i]) {
      NewRegionIsApart(bgs, bpg, total, k, n, live[i]);
    }
    forall i, j | 0 <= i < j < |all| ensures Apart(all[i], all[j]) {
      if j < |live| {
        assert Apart(live[i], live[j]);
      }
    }
  }

  lemma ContiguousKeepsSafe(bgs: seq<Group>, n: nat, bpg: nat, total: nat, live: seq<Region>)
    requires SoundAll(bgs, bpg, total) && Safe(bgs, live) && Contiguous(bgs, n).Some?
    ensures Safe(Contiguous(bgs, n).value.bgs, live + [Contiguous(bgs, n).value.region])
    ensures Contiguous(bgs, n).value.region.len == n
  {
    TakingKeepsSafe(bgs, bpg, total, FirstFit(bgs, n, 0), n, live);
  }

  lemma PartialKeepsSafe(bgs: seq<Group>, n: nat, bpg: nat, total: nat, live: seq<Region>)
    requires SoundAll(bgs, bpg, total) && Safe(bgs, live) && Partial(bgs, n).Some?
    ensures Safe(Partial(bgs, n).value.bgs, live + [Partial(bgs, n).value.region])
  {
    var k := FirstUnused(bgs, 0);
    if n <= bgs[k].free {
      ContiguousKeepsSafe(bgs, n, bpg, total, live);
    } else {
      TakingKeepsSafe(bgs, bpg, total, k, bgs[k].free, live);
    }
  }

  lemma SafeWithout(bgs: seq<Group>, live: seq<Region>, more: seq<Region>)
    requires Safe(bgs, live + more)
    ensures Safe(bgs, live)
  {
    var all := live + more;
    assert forall i | 0 <= i < |live| :: all[i] == live[i];
    forall i, j | 0 <= i < j < |live| ensures Apart(live[i], live[j]) {
      assert Apart(all[i], all[j]);
    }
  }

  function TotalLen(regions: seq<Region>): nat {
    if regions == [] then 0 else regions[0].len + TotalLen(regions[1..])
  }

  /** The first block group `i` has not given out. */
  function Top(bgs: seq<Group>, i: nat): nat
    requires i < |bgs|
  {
    bgs[i].firstBlock + bgs[i].firstFree
  }

  /** Allocating in several regions: they are apart from everything live and from each other, and add
      up to the blocks asked for. */
  lemma {:induction false} MultipleKeepsSafe(bgs: seq<Group>, n: nat, bpg: nat, total: nat, live: seq<Region>)
    requires SoundAll(bgs, bpg, total) && Safe(bgs, live) && !Stuck(bgs, n)
    ensures var (bgs', regions) := Multiple(bgs, n, bpg, total);
            && Safe(bgs', live)
            && (regions.Some? ==> Safe(bgs', live + regions.value) && TotalLen(regions.value) == n)
    decreases n
  {
    hide Safe, Partial, SoundAll, Stuck;
    var (bgs', regions) := Multiple(bgs, n, bpg, total);
    if n == 0 {
      assert live + [] == live;
    } else if Partial(bgs, n).Some? {
      var p := Partial(bgs, n).value;
      PartialKeepsSound(bgs, n, bpg, total);
      PartialKeepsSafe(bgs, n, bpg, total, live);
      MultipleKeepsSafe(p.bgs, n - p.region.len, bpg, total, live + [p.region]);
      SafeWithout(bgs', live, [p.region]);
      var rest := Multiple(p.bgs, n - p.region.len, bpg, total).1;
      if rest.Some? {
        assert live + [p.region] + rest.value == live + ([p.region] + rest.value);
        assert ([p.region] + rest.value)[1..] == rest.value;
      }
    }
  }

  lemma AllocateKeepsSafe(bgs: seq<Group>, n: nat, bpg: nat, total: nat, live: seq<Region>)
    requires SoundAll(bgs, bpg, total) && Safe(bgs, live) && Ends(bgs, n)
    ensures var (bgs', regions) := Allocate(bgs, n, bpg, total);
            && Safe(bgs', live)
            && (regions.Some? ==> Safe(bgs', live + regions.value) && TotalLen(regions.value) == n)
  {
    var c := Contiguous(bgs, n);
    if c.Some? {
      ContiguousKeepsSafe(bgs, n, bpg, total, live);
      SafeWithout(c.value.bgs, live, [c.value.region]);
      assert TotalLen([c.value.region]) == n by {
        assert [c.value.region][1..] == [];
      }
    } else {
      MultipleKeepsSafe(bgs, n, bpg, total, live);
    }
  }

  // ----- Giving back

  /** The region is what its group gave out last: the assumption of reduce_allocation. */
  predicate OnTop(bgs: seq<Group>, r: Region) {
    r.bg < |bgs| && r.block + r.len == Top(bgs, r.bg) && bgs[r.bg].used != 0
  }

  /** reduce_allocation by `n` blocks fewer than region `i` has. */
  lemma ReturningKeepsSafe(bgs: seq<Group>, bpg: nat, total: nat, live: seq<Region>, i: nat, n: nat)
    requires SoundAll(bgs, bpg, total) && Safe(bgs, live) && i < |live| && OnTop(bgs, live[i]) && n < live[i].len
    requires forall j | 0 <= j < |live| :: live[j].len > 0
    ensures n <= bgs[live[i].bg].firstFree
    ensures var now := bgs[live[i].bg := Returned(bgs[live[i].bg], n)];
            && SoundAll(now, bpg, total) && Safe(now, live[i := live[i].(len := live[i].len - n)])
            && OnTop(now, live[i].(len := live[i].len - n))
  {
    var r := live[i];
    var g := bgs[r.bg];
    assert Within(bgs, r) && Sound(g, bpg);
    var now := bgs[r.bg := Returned(g, n)];
    var r' := r.(len := r.len - n);
    var live' := live[i := r'];
    assert Sound(now[r.bg], bpg);
    forall k | 0 <= k < |now|
      ensures Sound(now[k], bpg) && now[k].firstBlock == k * bpg && now[k].firstBlock + now[k].limit <= total
    {
      assert Sound(bgs[k], bpg);
    }
    forall j | 0 <= j < |live'| ensures Within(now, live'[j]) {
      if j != i {
        assert Within(bgs, live[j]);
        if j < i {
          assert Apart(live[j], live[i]);
        } else {
          assert Apart(live[i], live[j]);
        }
      }
    }
    forall j, k | 0 <= j < k < |live'| ensures Apart(live'[j], live'[k]) {
      assert Apart(live[j], live[k]);
    }
  }

  // ----- Whole runs

  datatype Op = Alloc(n: nat) | Reduce(i: nat, n: nat)

  datatype State = State(bgs: seq<Group>, live: seq<Region>)

  /** What a caller may do: allocate at least one block where the allocator comes to an end, or give back a
      part of a region that its group gave out last. */
  ghost predicate Allowed(s: State, op: Op) {
    match op
    case Alloc(n) => n > 0 && Ends(s.bgs, n)
    case Reduce(i, n) => i < |s.live| && OnTop(s.bgs, s.live[i]) && n < s.live[i].len
  }

  ghost predicate Ok(s: State, bpg: nat, total: nat) {
    SoundAll(s.bgs, bpg, total) && Safe(s.bgs, s.live) && forall i | 0 <= i < |s.live| :: s.live[i].len > 0
  }

  ghost function Step(s: State, op: Op, bpg: nat, total: nat): State
    requires Ok(s, bpg, total) && Allowed(s, op)
  {
    match op
    case Alloc(n) =>
      var (bgs', regions) := Allocate(s.bgs, n, bpg, total);
      State(bgs', if regions.Some? then s.live + regions.value else s.live)
    case Reduce(i, n) =>
      ReturningKeepsSafe(s.bgs, bpg, total, s.live, i, n);
      var r := s.live[i];
      State(s.bgs[r.bg := Returned(s.bgs[r.bg], n)], s.live[i := r.(len := r.len - n)])
  }

  lemma {:induction false} MultipleIsPositive(bgs: seq<Group>, n: nat, bpg: nat, total: nat)
    requires SoundAll(bgs, bpg, total) && !Stuck(bgs, n)
    ensures var regions := Multiple(bgs, n, bpg, total).1;
            regions.Some? ==> forall i | 0 <= i < |regions.value| :: regions.value[i].len > 0
    decreases n
  {
    if n > 0 && Partial(bgs, n).Some? {
      PartialKeepsSound(bgs, n, bpg, total);
      var p := Partial(bgs, n).value;
      MultipleIsPositive(p.bgs, n - p.region.len, bpg, total);
    }
  }

  lemma AllocateIsPositive(bgs: seq<Group>, n: nat, bpg: nat, total: nat)
    requires SoundAll(bgs, bpg, total) && n > 0 && Ends(bgs, n)
    ensures var regions := Allocate(bgs, n, bpg, total).1;
            regions.Some? ==> forall i | 0 <= i < |regions.value| :: regions.value[i].len > 0
  {
    if !Stuck(bgs, n) {
      MultipleIsPositive(bgs, n, bpg, total);
    }
  }

  lemma StepKeepsOk(s: State, op: Op, bpg: nat, total: nat)
    requires Ok(s, bpg, total) && Allowed(s, op)
    ensures Ok(Step(s, op, bpg, total), bpg, total)
  {
    hide Safe, SoundAll, Multiple, Contiguous;
    match op
    case Alloc(n) =>
      AllocateKeepsSafe(s.bgs, n, bpg, total, s.live);
      AllocateIsPositive(s.bgs, n, bpg, total);
    case Reduce(i, n) =>
      ReturningKeepsSafe(s.bgs, bpg, total, s.live, i, n);
  }

  /** The states a run goes through. */
  ghost predicate IsRun(states: seq<State>, ops: seq<Op>, bpg: nat, total: nat) {
    && |states| == |ops| + 1
    && forall i | 0 <= i < |ops| ::
         Ok(states[i], bpg, total) ==> Allowed(states[i], ops[i]) && states[i + 1] == Step(states[i], ops[i], bpg, total)
  }

  /** Allocator safety over whole runs: whatever is allocated and given back, in every state the live
      regions are apart, inside the device, and clear of all headers. */
  lemma {:induction false} RunIsSafe(states: seq<State>, ops: seq<Op>, bpg: nat, total: nat, i: nat)
    requires IsRun(states, ops, bpg, total) && Ok(states[0], bpg, total) && i < |states|
    ensures Ok(states[i], bpg, total)
    ensures forall k | 0 <= k < |states[i].live| :: BlocksFine(states[i].bgs, states[i].live[k], total)
  {
    if i > 0 {
      RunIsSafe(states, ops, bpg, total, i - 1);
      StepKeepsOk(states[i - 1], ops[i - 1], bpg, total);
    }
    forall k | 0 <= k < |states[i].live| ensures BlocksFine(states[i].bgs, states[i].live[k], total) {
      RegionIsFine(states[i].bgs, bpg, total, states[i].live[k]);
    }
  }

  /** Inside the device, and not in the header of any group. */
  ghost predicate BlocksFine(bgs: seq<Group>, r: Region, total: nat) {
    r.block + r.len <= total && forall g | 0 <= g < |bgs| :: ClearOfHeader(bgs[g], r)
  }

  predicate ClearOfHeader(g: Group, r: Region) {
    r.block + r.len <= g.firstBlock || g.firstBlock + g.header <= r.block
  }

  lemma RegionIsFine(bgs: seq<Group>, bpg: nat, total: nat, r: Region)
    requires SoundAll(bgs, bpg, total) && Within(bgs, r)
    ensures BlocksFine(bgs, r, total)
  {
    assert Sound(bgs[r.bg], bpg);
    forall g | 0 <= g < |bgs| ensures ClearOfHeader(bgs[g], r) {
      assert Sound(bgs[g], bpg);
      GroupsApart(g, r.bg, bpg);
      GroupsApart(r.bg, g, bpg);
    }
  }

  lemma GroupsApart(a: nat, b: nat, bpg: nat)
    ensures a < b ==> a * bpg + bpg <= b * bpg
  {
    if a < b {
      MulMonotone(a + 1, b, bpg);
      assert (a + 1) * bpg == a * bpg + bpg;
    }
  }

  // ----- The first region of an allocation

  /** Allocation in several regions does not touch a group that is used up. */
  lemma {:induction false} MultipleSparesFullGroups(bgs: seq<Group>, n: nat, bpg: nat, total: nat, g: nat)
    requires SoundAll(bgs, bpg, total) && g < |bgs| && bgs[g].free == 0 && bgs[g].used != 0 && !Stuck(bgs, n)
    ensures Multiple(bgs, n, bpg, total).0[g] == bgs[g]
    decreases n
  {
    if n > 0 && Partial(bgs, n).Some? {
      PartialKeepsSound(bgs, n, bpg, total);
      var p := Partial(bgs, n).value;
      assert p.bgs[g] == bgs[g];
      MultipleSparesFullGroups(p.bgs, n - p.region.len, bpg, total, g);
    }
  }

  /** Right after an allocation its first region is what its group gave out last, so that a part of it
      may be given back. */
  lemma FirstRegionOnTop(bgs: seq<Group>, n: nat, bpg: nat, total: nat)
    requires SoundAll(bgs, bpg, total) && n > 0 && Ends(bgs, n)
    ensures var (bgs', regions) := Allocate(bgs, n, bpg, total);
            regions.Some? ==> regions.value != [] && OnTop(bgs', regions.value[0])
  {
    if Contiguous(bgs, n).None? && Partial(bgs, n).Some? {
      PartialKeepsSound(bgs, n, bpg, total);
      var p := Partial(bgs, n).value;
      var rest := n - p.region.len;
      if rest > 0 {
        MultipleSparesFullGroups(p.bgs, rest, bpg, total, p.region.bg);
      }
    }
  }
}
