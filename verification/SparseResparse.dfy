/** Dividing a sparse image into files of bounded size (sparse_file_resparse of libsparse/sparse.c). */
module SparseResparse {
  import opened Common
  import opened SparseList
  import opened SparseQueue

  /** Room kept for the file header, the skip chunks at both ends, the header of a split chunk and
      the CRC chunk. */
  const OVERHEAD: nat := FILE_HDR + 4 * CHUNK_HDR + 4

  /** What max_len leaves for the chunks, on 32 bits. */
  function RoomOf(maxLen: nat): nat { (maxLen - OVERHEAD) % TWO_32 }

  /** The bytes a run takes in a sparse file. */
  function ChunkSize(bs: nat, r: Run): nat
    requires bs > 0
  {
    if r.src.Fill? then CHUNK_HDR + 4 else CHUNK_HDR + AlignUp(r.len, bs)
  }

  function Size(bs: nat, runs: seq<Run>): nat
    requires bs > 0
  {
    if runs == [] then 0 else Size(bs, runs[..|runs| - 1]) + ChunkSize(bs, runs[|runs| - 1])
  }

  /** The outcome of move_chunks_up_to_len: what is moved, what stays, and whether it stopped early. */
  datatype Round = Round(piece: seq<Run>, rest: seq<Run>, more: bool)

  /** The loop of move_chunks_up_to_len from run `i` on; `len` is already without the overhead. */
  function Scan(bs: nat, runs: seq<Run>, len: nat, i: nat, fileLen: nat): Round
    requires bs > 0 && i <= |runs| && fileLen <= len
    decreases |runs| - i
  {
    if i == |runs| then Round(runs, [], false)
    else if fileLen + ChunkSize(bs, runs[i]) > len then StopAt(bs, runs, len, i, fileLen)
    else Scan(bs, runs, len, i + 1, fileLen + ChunkSize(bs, runs[i]))
  }

  /** Run `i` does not fit: split it if more than an eighth of the room is left, or nothing has been
      taken yet. */
  function StopAt(bs: nat, runs: seq<Run>, len: nat, i: nat, fileLen: nat): Round
    requires bs > 0 && i < |runs| && fileLen <= len
  {
    if i == 0 || len - fileLen > len / 8 then
      var s := SplitRuns(bs, runs, i, len - fileLen);
      Round(s[..i + 1], s[i + 1..], true)
    else Round(runs[..i], runs[i..], true)
  }

  function Weight(runs: seq<Run>): nat {
    if runs == [] then 0 else 1 + runs[0].len + Weight(runs[1..])
  }

  function TotalLen(runs: seq<Run>): nat {
    if runs == [] then 0 else runs[0].len + TotalLen(runs[1..])
  }

  /** There is room for a block, or every chunk fits as it is. */
  predicate Divisible(bs: nat, runs: seq<Run>, len: nat)
    requires bs > 0
  {
    len >= bs || forall i | 0 <= i < |runs| :: ChunkSize(bs, runs[i]) <= len
  }

  /** The files sparse_file_resparse makes, in order. */
  function Divide(bs: nat, runs: seq<Run>, len: nat): (pieces: seq<seq<Run>>)
    requires bs > 0 && Divisible(bs, runs, len)
    ensures |pieces| > 0
    decreases Weight(runs)
  {
    var p := Scan(bs, runs, len, 0, 0);
    if p.more then
      RoundShrinks(bs, runs, len);
      [p.piece] + Divide(bs, p.rest, len)
    else [p.piece]
  }

  function Flatten(pieces: seq<seq<Run>>): seq<Run> {
    if pieces == [] then [] else pieces[0] + Flatten(pieces[1..])
  }

  // ----- One round

  lemma SizeStep(bs: nat, runs: seq<Run>, k: nat)
    requires bs > 0 && k < |runs|
    ensures Size(bs, runs[..k + 1]) == Size(bs, runs[..k]) + ChunkSize(bs, runs[k])
  {
    assert runs[..k + 1][..k] == runs[..k];
  }

  /** Runs that fit are passed over. */
  lemma {:induction false} ScanSkips(bs: nat, runs: seq<Run>, len: nat, k: nat)
    requires bs > 0 && k <= |runs| && Size(bs, runs[..k]) <= len
    ensures Scan(bs, runs, len, 0, 0) == Scan(bs, runs, len, k, Size(bs, runs[..k]))
  {
    if k > 0 {
      SizeStep(bs, runs, k - 1);
      ScanSkips(bs, runs, len, k - 1);
    }
  }

  /** Where a round stops. */
  lemma {:induction false} ScanStops(bs: nat, runs: seq<Run>, len: nat, i: nat) returns (k: nat)
    requires bs > 0 && i <= |runs| && Size(bs, runs[..i]) <= len
    ensures k <= |runs| && Size(bs, runs[..k]) <= len
    ensures k < |runs| ==>
              && Size(bs, runs[..k]) + ChunkSize(bs, runs[k]) > len
              && Scan(bs, runs, len, 0, 0) == StopAt(bs, runs, len, k, Size(bs, runs[..k]))
    ensures k == |runs| ==> Scan(bs, runs, len, 0, 0) == Round(runs, [], false)
    decreases |runs| - i
  {
    ScanSkips(bs, runs, len, i);
    if i == |runs| || Size(bs, runs[..i]) + ChunkSize(bs, runs[i]) > len {
      k := i;
    } else {
      SizeStep(bs, runs, i);
      k := ScanStops(bs, runs, len, i + 1);
    }
  }

  lemma {:induction false} WeightConcat(a: seq<Run>, b: seq<Run>)
    ensures Weight(a + b) == Weight(a) + Weight(b)
    ensures TotalLen(a + b) == TotalLen(a) + TotalLen(b)
  {
    if a == [] {
      assert a + b == b;
    } else {
      assert (a + b)[1..] == a[1..] + b;
      WeightConcat(a[1..], b);
    }
  }

  /** How a round ends: at the end of the list, before a run, after a run, or `m` bytes into a run. */
  datatype Stop = AtEnd | BeforeRun(k: nat) | AfterRun(k: nat) | Inside(k: nat, m: nat)

  /** Run `k` is the first one that does not fit. */
  predicate FullAt(bs: nat, runs: seq<Run>, len: nat, k: nat)
    requires bs > 0
  {
    k < |runs| && Size(bs, runs[..k]) <= len < Size(bs, runs[..k]) + ChunkSize(bs, runs[k])
  }

  /** Run `k` is split, or taken whole, rather than left for the next round. */
  predicate Takes(bs: nat, runs: seq<Run>, len: nat, k: nat)
    requires bs > 0 && k < |runs| && Size(bs, runs[..k]) <= len
  {
    k == 0 || len - Size(bs, runs[..k]) > len / 8
  }

  ghost predicate StopIs(bs: nat, runs: seq<Run>, len: nat, s: Stop)
    requires bs > 0
  {
    match s
    case AtEnd => Size(bs, runs) <= len
    case BeforeRun(k) => 0 < k && FullAt(bs, runs, len, k) && !Takes(bs, runs, len, k)
    case AfterRun(k) =>
      && FullAt(bs, runs, len, k) && Takes(bs, runs, len, k)
      && runs[k].len <= AlignDown(len - Size(bs, runs[..k]), bs)
    case Inside(k, m) =>
      && FullAt(bs, runs, len, k) && Takes(bs, runs, len, k)
      && m == AlignDown(len - Size(bs, runs[..k]), bs) < runs[k].len && (m >= bs || (m == 0 && k > 0))
  }

  ghost function RoundOf(bs: nat, runs: seq<Run>, s: Stop): Round
    requires bs > 0 && (s.AtEnd? || s.k < |runs|) && (s.Inside? ==> s.m <= runs[s.k].len)
  {
    match s
    case AtEnd => Round(runs, [], false)
    case BeforeRun(k) => Round(runs[..k], runs[k..], true)
    case AfterRun(k) => Round(runs[..k + 1], runs[k + 1..], true)
    case Inside(k, m) =>
      var (a, b) := Cut(bs, runs[k], m);
      Round(runs[..k] + [a], [b] + runs[k + 1..], true)
  }

  /** How much of the first run that does not fit can be taken. */
  lemma RoomForBlocks(bs: nat, runs: seq<Run>, len: nat, k: nat)
    requires bs > 0 && Divisible(bs, runs, len) && FullAt(bs, runs, len, k) && Takes(bs, runs, len, k)
    ensures var room := len - Size(bs, runs[..k]);
            var m := AlignDown(room, bs);
            && m <= room < m + bs && (m >= bs || (m == 0 && k > 0)) && (len >= 8 * bs ==> m >= bs)
            && (k == 0 ==> room == len)
  {
    if k == 0 {
      assert runs[..0] == [];
    }
    var room := len - Size(bs, runs[..k]);
    AlignDownBounds(room, bs);
    AlignDownWhole(room, bs);
  }

  lemma AlignDownWhole(x: nat, y: nat)
    requires y > 0
    ensures AlignDown(x, y) == 0 || AlignDown(x, y) >= y
  {
    if x / y > 0 {
      MulMonotone(1, x / y, y);
    }
  }

  lemma SplitParts(bs: nat, runs: seq<Run>, k: nat, room: nat)
    requires bs > 0 && k < |runs|
    ensures var m := AlignDown(room, bs);
            var s := SplitRuns(bs, runs, k, room);
            if runs[k].len <= m then s == runs
            else
              var (a, b) := Cut(bs, runs[k], m);
              s[..k + 1] == runs[..k] + [a] && s[k + 1..] == [b] + runs[k + 1..]
              && s == runs[..k] + [a] + ([b] + runs[k + 1..])
  {
  }

  /** What a round does: it takes a prefix of the list, after cutting at most one run in two. */
  lemma RoundTakes(bs: nat, runs: seq<Run>, len: nat) returns (s: Stop)
    requires bs > 0 && Divisible(bs, runs, len)
    ensures StopIs(bs, runs, len, s) && Scan(bs, runs, len, 0, 0) == RoundOf(bs, runs, s)
  {
    hide Scan, SplitRuns, ChunkSize, AlignDown, Cut;
    assert runs[..0] == [];
    var k := ScanStops(bs, runs, len, 0);
    if k == |runs| {
      assert runs[..k] == runs;
      return AtEnd;
    }
    if !Takes(bs, runs, len, k) {
      return BeforeRun(k);
    }
    RoomForBlocks(bs, runs, len, k);
    var room := len - Size(bs, runs[..k]);
    SplitParts(bs, runs, k, room);
    s := if runs[k].len <= AlignDown(room, bs) then AfterRun(k) else Inside(k, AlignDown(room, bs));
  }

  /** A round that stops early takes something, and what it leaves can be divided. */
  lemma RoundShrinks(bs: nat, runs: seq<Run>, len: nat)
    requires bs > 0 && Divisible(bs, runs, len) && Scan(bs, runs, len, 0, 0).more
    ensures var p := Scan(bs, runs, len, 0, 0);
            && Weight(p.rest) < Weight(runs) && p.piece != [] && Divisible(bs, p.rest, len)
            && (Sized(runs) ==> TotalLen(p.rest) < TotalLen(runs) && Sized(p.rest))
  {
    hide Scan, AlignDown, ChunkSize, Divisible, Sized;
    var s := RoundTakes(bs, runs, len);
    var k := s.k;
    WeightFrom(runs, k);
    if s.Inside? {
      var (a, b) := Cut(bs, runs[k], s.m);
      if s.m == 0 {
        CutNothing(bs, runs[k]);
        assert [b] + runs[k + 1..] == runs[k..];
      } else {
        NothingFits(bs, runs, len, k);
        WeightFirst(b, runs[k + 1..]);
      }
    }
    RestOf(bs, runs, len, s);
  }

  /** The runs from `k` on, with run `k` and without it. */
  lemma WeightFrom(runs: seq<Run>, k: nat)
    requires k < |runs|
    ensures Weight(runs[k + 1..]) < Weight(runs[k..]) == Weight(runs[k + 1..]) + 1 + runs[k].len <= Weight(runs)
    ensures TotalLen(runs[k..]) == TotalLen(runs[k + 1..]) + runs[k].len <= TotalLen(runs)
    ensures k > 0 ==> Weight(runs[k..]) < Weight(runs) && TotalLen(runs[k..]) + runs[0].len <= TotalLen(runs)
  {
    assert runs == runs[..k] + runs[k..];
    WeightConcat(runs[..k], runs[k..]);
    assert runs[k..][1..] == runs[k + 1..];
    if k > 0 {
      assert runs[..k][0] == runs[0];
    }
  }

  lemma WeightFirst(b: Run, rest: seq<Run>)
    ensures Weight([b] + rest) == 1 + b.len + Weight(rest) && TotalLen([b] + rest) == b.len + TotalLen(rest)
  {
    assert ([b] + rest)[1..] == rest;
  }

  /** What a round leaves is made of the runs it found, and of one part of one of them. */
  lemma RestOf(bs: nat, runs: seq<Run>, len: nat, s: Stop)
    requires bs > 0 && Divisible(bs, runs, len) && StopIs(bs, runs, len, s)
    requires s.Inside? && s.m > 0 ==> len >= bs
    ensures Divisible(bs, RoundOf(bs, runs, s).rest, len)
    ensures Sized(runs) ==> Sized(RoundOf(bs, runs, s).rest)
    ensures Sized(runs) && !s.AtEnd? ==> runs[0].len > 0 && runs[s.k].len > 0
  {
    hide ChunkSize, AlignDown;
    if s.Inside? {
      CutNothing(bs, runs[s.k]);
    }
  }

  /** A run is cut in two parts only where there is room for a block. */
  lemma NothingFits(bs: nat, runs: seq<Run>, len: nat, k: nat)
    requires bs > 0 && FullAt(bs, runs, len, k) && AlignDown(len - Size(bs, runs[..k]), bs) >= bs
    ensures len >= bs
  {
    AlignDownBounds(len - Size(bs, runs[..k]), bs);
  }

  // ----- When the division ends

  /** Whether the loop of sparse_file_resparse has ended after `n` rounds. */
  predicate Ended(bs: nat, runs: seq<Run>, len: nat, n: nat)
    requires bs > 0
    decreases n
  {
    n > 0 &&
    var p := Scan(bs, runs, len, 0, 0);
    !p.more || Ended(bs, p.rest, len, n - 1)
  }

  predicate EndsWithin(bs: nat, runs: seq<Run>, len: nat, n: nat)
    requires bs > 0
  {
    Ended(bs, runs, len, n)
  }

  lemma {:induction false} DivisibleEnds(bs: nat, runs: seq<Run>, len: nat) returns (n: nat)
    requires bs > 0 && Divisible(bs, runs, len)
    ensures Ended(bs, runs, len, n)
    decreases Weight(runs)
  {
    hide Scan, Divisible;
    var p := Scan(bs, runs, len, 0, 0);
    if p.more {
      RoundShrinks(bs, runs, len);
      n := DivisibleEnds(bs, p.rest, len);
      n := n + 1;
    } else {
      n := 1;
    }
  }

  /** With less room than one block, a round stops early as long as some chunk does not fit, and leaves
      every run from the first of these on. */
  lemma TooSmallNeverShrinks(bs: nat, runs: seq<Run>, len: nat, i: nat) returns (k: nat)
    requires 0 <= len < bs && Sized(runs) && i < |runs| && ChunkSize(bs, runs[i]) > len
    ensures var p := Scan(bs, runs, len, 0, 0); p.more && k <= i && p.rest == runs[k..]
  {
    hide Scan, ChunkSize, AlignDown, SplitRuns;
    assert runs[..0] == [];
    k := ScanStops(bs, runs, len, 0);
    if k > i {
      SizeOfPart(bs, runs, i, k);
      assert false;
    }
    var room := len - Size(bs, runs[..k]);
    AlignDownSmall(room, bs);
    SplitParts(bs, runs, k, room);
    CutNothing(bs, runs[k]);
    assert runs[k..] == [runs[k]] + runs[k + 1..];
  }

  lemma AlignDownSmall(x: nat, y: nat)
    requires x < y
    ensures AlignDown(x, y) == 0
  {
    DivModUnique(0, x, y);
  }

  lemma {:induction false} SizeOfPart(bs: nat, runs: seq<Run>, i: nat, k: nat)
    requires bs > 0 && i < k <= |runs|
    ensures Size(bs, runs[..k]) >= ChunkSize(bs, runs[i])
  {
    hide ChunkSize;
    SizeStep(bs, runs, k - 1);
    if i < k - 1 {
      SizeOfPart(bs, runs, i, k - 1);
    }
  }

  lemma {:induction false} TooSmallNeverEnds(bs: nat, runs: seq<Run>, len: nat, i: nat, n: nat)
    requires 0 <= len < bs && Sized(runs) && i < |runs| && ChunkSize(bs, runs[i]) > len
    ensures !Ended(bs, runs, len, n)
    decreases n
  {
    hide Scan, ChunkSize;
    if n > 0 {
      var k := TooSmallNeverShrinks(bs, runs, len, i);
      assert runs[k..][i - k] == runs[i];
      TooSmallNeverEnds(bs, runs[k..], len, i - k, n - 1);
    }
  }

  /** The division ends if and only if there is room for a block or every chunk fits as it is. */
  lemma DivisionEndsIff(bs: nat, runs: seq<Run>, len: nat)
    requires bs > 0 && Sized(runs)
    ensures (exists n: nat :: EndsWithin(bs, runs, len, n)) <==> Divisible(bs, runs, len)
  {
    hide ChunkSize, Ended;
    if Divisible(bs, runs, len) {
      var n := DivisibleEnds(bs, runs, len);
      assert EndsWithin(bs, runs, len, n);
    } else {
      var i :| 0 <= i < |runs| && ChunkSize(bs, runs[i]) > len;
      forall n: nat ensures !EndsWithin(bs, runs, len, n) {
        TooSmallNeverEnds(bs, runs, len, i, n);
      }
    }
  }

  // ----- The image is conserved

  /** A round puts the list in two, after at most one split. */
  lemma RoundSplits(bs: nat, runs: seq<Run>, len: nat) returns (k: nat, room: nat)
    requires bs > 0
    ensures var p := Scan(bs, runs, len, 0, 0);
            p.piece + p.rest == runs || (k < |runs| && p.piece + p.rest == SplitRuns(bs, runs, k, room))
  {
    hide Scan, SplitRuns, ChunkSize;
    assert runs[..0] == [];
    k := ScanStops(bs, runs, len, 0);
    room := if k < |runs| then len - Size(bs, runs[..k]) else 0;
    var p := Scan(bs, runs, len, 0, 0);
    if k < |runs| && Takes(bs, runs, len, k) {
      LongEnough(bs, runs, k, room);
      assert p.piece + p.rest == SplitRuns(bs, runs, k, room);
    } else {
      assert p.piece + p.rest == runs;
    }
  }

  lemma LongEnough(bs: nat, runs: seq<Run>, k: nat, room: nat)
    requires bs > 0 && k < |runs|
    ensures k < |SplitRuns(bs, runs, k, room)|
  {
  }

  /** No run of `c` starts before the first one of `b`. */
  predicate StartIn(c: seq<Run>, b: seq<Run>) {
    c == [] || (b != [] && forall j | 0 <= j < |c| :: b[0].block <= c[j].block)
  }

  lemma RoundKeepsImage(env: Env, bs: nat, runs: seq<Run>, len: nat)
    requires bs > 0 && Ordered(bs, runs) && Fields(runs)
    ensures var p := Scan(bs, runs, len, 0, 0);
            && Ordered(bs, p.piece + p.rest) && Fields(p.piece + p.rest) && StartIn(p.piece + p.rest, runs)
            && forall b :: Image(env, bs, p.piece + p.rest, b) == Image(env, bs, runs, b)
  {
    hide Scan, Image;
    var k, room := RoundSplits(bs, runs, len);
    var p := Scan(bs, runs, len, 0, 0);
    StartInItself(bs, runs);
    if p.piece + p.rest != runs {
      SplitKeepsImage(env, bs, runs, k, room);
      SplitStarts(bs, runs, k, room);
      StartInItself(bs, p.piece + p.rest);
    }
  }

  lemma StartInItself(bs: nat, runs: seq<Run>)
    requires bs > 0 && Ordered(bs, runs)
    ensures StartIn(runs, runs)
  {
    forall j | 0 < j < |runs| ensures runs[0].block <= runs[j].block {
      assert Before(bs, runs[0], runs[j]);
    }
  }

  lemma SplitStarts(bs: nat, runs: seq<Run>, k: nat, room: nat)
    requires bs > 0 && k < |runs|
    ensures var out := SplitRuns(bs, runs, k, room); out != [] && out[0].block == runs[0].block
  {
    hide AlignDown, Skip;
  }

  lemma OrderedParts(bs: nat, a: seq<Run>, b: seq<Run>)
    requires bs > 0 && Ordered(bs, a + b) && Fields(a + b)
    ensures Ordered(bs, a) && Ordered(bs, b) && Fields(a) && Fields(b)
    ensures forall i, j | 0 <= i < |a| && 0 <= j < |b| :: Before(bs, a[i], b[j])
  {
    var all := a + b;
    forall i | 0 <= i < |a| ensures a[i] == all[i] {
    }
    forall j | 0 <= j < |b| ensures b[j] == all[|a| + j] {
    }
    forall i, j | 0 <= i < j < |a| ensures Before(bs, a[i], a[j]) {
      assert Before(bs, all[i], all[j]);
    }
    forall i, j | 0 <= i < j < |b| ensures Before(bs, b[i], b[j]) {
      assert Before(bs, all[|a| + i], all[|a| + j]);
    }
    forall i, j | 0 <= i < |a| && 0 <= j < |b| ensures Before(bs, a[i], b[j]) {
      assert Before(bs, all[i], all[|a| + j]);
    }
  }

  /** Runs that start where those of an ordered list do can take their place. */
  lemma OrderedBehind(bs: nat, a: seq<Run>, b: seq<Run>, c: seq<Run>)
    requires bs > 0 && Ordered(bs, a + b) && Fields(a + b) && Ordered(bs, c) && Fields(c) && StartIn(c, b)
    ensures Ordered(bs, a + c) && Fields(a + c)
  {
    OrderedParts(bs, a, b);
    forall i, j | 0 <= i < j < |a + c| ensures Before(bs, (a + c)[i], (a + c)[j]) {
      if j < |a| {
        assert Before(bs, a[i], a[j]);
      } else if i < |a| {
        assert Before(bs, a[i], b[0]) && b[0].block <= c[j - |a|].block;
      } else {
        assert Before(bs, c[i - |a|], c[j - |a|]);
      }
    }
  }

  lemma StartParts(a: seq<Run>, b: seq<Run>, runs: seq<Run>)
    requires StartIn(a + b, runs)
    ensures StartIn(a, runs) && StartIn(b, runs)
  {
    forall j | 0 <= j < |a| ensures a[j] == (a + b)[j] {
    }
    forall j | 0 <= j < |b| ensures b[j] == (a + b)[|a| + j] {
    }
  }

  lemma StartThrough(c: seq<Run>, b: seq<Run>, runs: seq<Run>)
    requires StartIn(c, b) && StartIn(b, runs)
    ensures StartIn(c, runs)
  {
  }

  lemma StartConcat(a: seq<Run>, b: seq<Run>, runs: seq<Run>)
    requires StartIn(a, runs) && StartIn(b, runs)
    ensures StartIn(a + b, runs)
  {
  }

  /** Conservation: the files in order are an ordered list with the image of the input. No block is
      lost, duplicated or out of order. */
  lemma {:induction false} DivideConserves(env: Env, bs: nat, runs: seq<Run>, len: nat)
    requires bs > 0 && Divisible(bs, runs, len) && Ordered(bs, runs) && Fields(runs)
    ensures var all := Flatten(Divide(bs, runs, len));
            && Ordered(bs, all) && Fields(all) && StartIn(all, runs)
            && forall b :: Image(env, bs, all, b) == Image(env, bs, runs, b)
    decreases Weight(runs)
  {
    hide Image, Ordered, Fields, StartIn, Scan, Divisible;
    var p := Scan(bs, runs, len, 0, 0);
    RoundKeepsImage(env, bs, runs, len);
    OrderedParts(bs, p.piece, p.rest);
    StartParts(p.piece, p.rest, runs);
    if p.more {
      RoundShrinks(bs, runs, len);
      DivideConserves(env, bs, p.rest, len);
      var tail := Flatten(Divide(bs, p.rest, len));
      OrderedBehind(bs, p.piece, p.rest, tail);
      StartThrough(tail, p.rest, runs);
      StartConcat(p.piece, tail, runs);
      assert Divide(bs, runs, len)[1..] == Divide(bs, p.rest, len);
      forall b ensures Image(env, bs, p.piece + tail, b) == Image(env, bs, runs, b) {
        ImageConcat(env, bs, p.piece, tail, b);
        ImageConcat(env, bs, p.piece, p.rest, b);
      }
    } else {
      var s := RoundTakes(bs, runs, len);
      assert p.piece + p.rest == runs;
      FlattenOne(p.piece);
    }
  }

  lemma FlattenOne(piece: seq<Run>)
    ensures Flatten([piece]) == piece
  {
    assert [piece][1..] == [];
    assert piece + [] == piece;
  }

  /** With room for eight blocks no file holds a run of no length. */
  lemma {:induction false} DivideSized(bs: nat, runs: seq<Run>, len: nat)
    requires bs > 0 && len >= 8 * bs && Sized(runs)
    ensures Sized(Flatten(Divide(bs, runs, len)))
    decreases Weight(runs)
  {
    hide Scan, AlignDown, ChunkSize;
    var p := Scan(bs, runs, len, 0, 0);
    var s := RoundTakes(bs, runs, len);
    if s.Inside? {
      RoomForBlocks(bs, runs, len, s.k);
    }
    assert Sized(p.piece);
    if p.more {
      RoundShrinks(bs, runs, len);
      DivideSized(bs, p.rest, len);
      assert Divide(bs, runs, len)[1..] == Divide(bs, p.rest, len);
    } else {
      FlattenOne(p.piece);
    }
  }

  // ----- Counting first, dividing later

  /** The first run of a division is the first run, or a cut of it that leaves little room. */
  lemma FirstRunOfDivision(bs: nat, runs: seq<Run>, len: nat)
    requires bs > 0 && Divisible(bs, runs, len) && runs != [] && Sized(runs)
    ensures var all := Flatten(Divide(bs, runs, len));
            && all != [] && all[0].src.Fill? == runs[0].src.Fill? && all[0].len > 0
            && (all[0] == runs[0] || 2 * all[0].len > len)
  {
    hide Scan, AlignDown, ChunkSize, Divisible;
    var s := RoundTakes(bs, runs, len);
    var p := Scan(bs, runs, len, 0, 0);
    assert runs[..0] == [];
    if p.more {
      RoundShrinks(bs, runs, len);
    }
    if s.Inside? {
      RoomForBlocks(bs, runs, len, s.k);
    }
    var pieces := Divide(bs, runs, len);
    assert pieces[0] == p.piece;
    assert Flatten(pieces)[0] == p.piece[0];
  }

  lemma BigChunk(bs: nat, r: Run)
    requires bs > 0 && !r.src.Fill? && r.len > 0
    ensures ChunkSize(bs, r) >= CHUNK_HDR + bs && ChunkSize(bs, r) >= CHUNK_HDR + r.len
  {
    AlignUpBounds(r.len, bs);
    RoundUpPositive(r.len, bs);
    MulMonotone(1, DivRoundUp(r.len, bs), bs);
  }

  /** The runs of a list that have a length. */
  function Solid(runs: seq<Run>): seq<Run> {
    if runs == [] then []
    else
      var last := runs[|runs| - 1];
      Solid(runs[..|runs| - 1]) + if last.len > 0 then [last] else []
  }

  /** `q` is `p`, perhaps with one more run of no length at the end. */
  ghost predicate SameButEmpty(p: seq<Run>, q: seq<Run>) {
    q == p || (|q| == |p| + 1 && q[..|p|] == p && q[|p|].len == 0)
  }

  lemma SameSolid(p: seq<Run>, q: seq<Run>)
    requires SameButEmpty(p, q)
    ensures Solid(q) == Solid(p)
  {
    if q != p {
      assert q[..|q| - 1] == p;
      assert Solid(p) + [] == Solid(p);
    }
  }

  /** A list that fits, and behind it a run that does not: the next round ends between them. */
  lemma StopsBetween(bs: nat, a: seq<Run>, tail: seq<Run>, len: nat)
    requires bs > 0 && a != [] && tail != [] && tail[0].len > 0
    requires Size(bs, a) <= len < Size(bs, a) + ChunkSize(bs, tail[0])
    requires len - Size(bs, a) <= len / 8 || len - Size(bs, a) < bs
    ensures var q := Scan(bs, a + tail, len, 0, 0);
            && q.more && q.rest == tail && SameButEmpty(a, q.piece)
            && (len - Size(bs, a) <= len / 8 ==> q.piece == a)
  {
    hide Scan, ChunkSize, AlignDown;
    var all := a + tail;
    var k := |a|;
    assert all[..k] == a && all[k..] == tail && all[k] == tail[0];
    ScanSkips(bs, all, len, k);
    ScanAt(bs, all, len, k);
    var room := len - Size(bs, a);
    if room > len / 8 {
      AlignDownSmall(room, bs);
      SplitParts(bs, all, k, room);
      CutNothing(bs, tail[0]);
      assert [tail[0]] + all[k + 1..] == tail;
    }
  }

  lemma ScanAt(bs: nat, runs: seq<Run>, len: nat, k: nat)
    requires bs > 0 && FullAt(bs, runs, len, k)
    ensures Scan(bs, runs, len, k, Size(bs, runs[..k])) == StopAt(bs, runs, len, k, Size(bs, runs[..k]))
  {
    hide ChunkSize, StopAt;
  }

  /** The round stopped before run `k`: what the next round makes of that run still does not fit. */
  lemma NextRunStillTooBig(bs: nat, runs: seq<Run>, len: nat, k: nat)
    requires bs > 0 && 0 < k < |runs| && Divisible(bs, runs[k..], len) && Sized(runs) && FullAt(bs, runs, len, k)
    requires len - Size(bs, runs[..k]) <= len / 8
    ensures var tail := Flatten(Divide(bs, runs[k..], len));
            tail != [] && tail[0].len > 0 && Size(bs, runs[..k]) + ChunkSize(bs, tail[0]) > len
  {
    hide Divide, Flatten, AlignUp, Divisible;
    FirstRunOfDivision(bs, runs[k..], len);
    var r := Flatten(Divide(bs, runs[k..], len))[0];
    if r != runs[k] && !r.src.Fill? {
      BigChunk(bs, r);
    }
  }

  /** The round cut run `k`, and the first part fits with its header: the second part does not. */
  lemma PastCut(bs: nat, runs: seq<Run>, len: nat, k: nat, m: nat)
    requires bs > 0 && Divisible(bs, runs, len) && Sized(runs) && StopIs(bs, runs, len, Inside(k, m))
    requires Divisible(bs, [Cut(bs, runs[k], m).1] + runs[k + 1..], len)
    requires Size(bs, runs[..k]) + ChunkSize(bs, Cut(bs, runs[k], m).0) <= len
    ensures var (a, b) := Cut(bs, runs[k], m);
            var tail := Flatten(Divide(bs, [b] + runs[k + 1..], len));
            var taken := runs[..k] + [a];
            && tail != [] && tail[0].len > 0 && Size(bs, taken) <= len < Size(bs, taken) + ChunkSize(bs, tail[0])
            && len - Size(bs, taken) < bs
  {
    hide Scan, Divide, Flatten, AlignUp, AlignDown, Weight, Divisible;
    RoomForBlocks(bs, runs, len, k);
    var (a, b) := Cut(bs, runs[k], m);
    var rest := [b] + runs[k + 1..];
    FirstRunOfDivision(bs, rest, len);
    var tail := Flatten(Divide(bs, rest, len));
    var taken := runs[..k] + [a];
    assert taken[..k] == runs[..k];
    assert !a.src.Fill? && !tail[0].src.Fill?;
    BigChunk(bs, tail[0]);
    CutChunk(bs, a);
  }

  lemma CutChunk(bs: nat, r: Run)
    requires bs > 0 && !r.src.Fill?
    ensures ChunkSize(bs, r) >= CHUNK_HDR + r.len
  {
    AlignUpBounds(r.len, bs);
  }

  /** A round over a list whose first part is the piece of an earlier round, and whose rest is the division
      of what that round left, ends at the same place, perhaps after a run of no length. */
  lemma {:induction false} RoundRepeats(bs: nat, runs: seq<Run>, len: nat)
    requires bs > 0 && Divisible(bs, runs, len) && Sized(runs) && Scan(bs, runs, len, 0, 0).more
    requires Divisible(bs, Scan(bs, runs, len, 0, 0).rest, len)
    ensures var p := Scan(bs, runs, len, 0, 0);
            var tail := Flatten(Divide(bs, p.rest, len));
            var q := Scan(bs, p.piece + tail, len, 0, 0);
            q.more && q.rest == tail && SameButEmpty(p.piece, q.piece) && (len >= 8 * bs ==> q.piece == p.piece)
  {
    hide Scan, Divide, Flatten, AlignUp, AlignDown, Weight, ChunkSize, Divisible;
    var s := RoundTakes(bs, runs, len);
    var k := s.k;
    var p := Scan(bs, runs, len, 0, 0);
    var tail := Flatten(Divide(bs, p.rest, len));
    var all := p.piece + tail;
    assert all[..k] == runs[..k];
    ScanSkips(bs, all, len, k);
    if s.BeforeRun? {
      NextRunStillTooBig(bs, runs, len, k);
      StopsBetween(bs, p.piece, tail, len);
    } else {
      assert all[k] == p.piece[k];
      if Size(bs, runs[..k]) + ChunkSize(bs, all[k]) > len {
        ScanAt(bs, all, len, k);
        SplitParts(bs, all, k, len - Size(bs, runs[..k]));
        assert all[..k + 1] == p.piece && all[k + 1..] == tail;
      } else {
        PastCut(bs, runs, len, k, s.m);
        StopsBetween(bs, p.piece, tail, len);
      }
    }
  }

  /** What the files of a division hold can be divided again. */
  lemma {:induction false} DivideDivisible(bs: nat, runs: seq<Run>, len: nat)
    requires bs > 0 && Divisible(bs, runs, len)
    ensures Divisible(bs, Flatten(Divide(bs, runs, len)), len)
    decreases Weight(runs)
  {
    if len < bs {
      hide Scan, AlignDown;
      var p := Scan(bs, runs, len, 0, 0);
      var s := RoundTakes(bs, runs, len);
      if s.Inside? {
        EmptyChunkFits(bs, runs[s.k]);
      }
      assert forall i | 0 <= i < |p.piece| :: ChunkSize(bs, p.piece[i]) <= len;
      if p.more {
        RoundShrinks(bs, runs, len);
        DivideDivisible(bs, p.rest, len);
        assert Divide(bs, runs, len)[1..] == Divide(bs, p.rest, len);
      } else {
        FlattenOne(p.piece);
      }
    }
  }

  lemma EmptyChunkFits(bs: nat, r: Run)
    requires bs > 0
    ensures forall m | 0 <= m <= r.len :: ChunkSize(bs, r.(len := m)) <= ChunkSize(bs, r)
  {
    forall m | 0 <= m <= r.len ensures AlignUp(m, bs) <= AlignUp(r.len, bs) {
      DivMonotone(m + bs - 1, r.len + bs - 1, bs);
      MulMonotone(DivRoundUp(m, bs), DivRoundUp(r.len, bs), bs);
    }
  }

  /** The two divisions have the same files, but for runs of no length. */
  ghost predicate SameFiles(a: seq<seq<Run>>, b: seq<seq<Run>>) {
    |a| == |b| && forall i | 0 <= i < |a| :: Solid(a[i]) == Solid(b[i])
  }

  /** The counting pass predicts the real pass: dividing the already split image gives the same number of
      files, and the same files but for runs of no length; with room for eight blocks, exactly the same. */
  lemma {:induction false} DivideTwice(bs: nat, runs: seq<Run>, len: nat)
    requires bs > 0 && Divisible(bs, runs, len) && Sized(runs)
    ensures Divisible(bs, Flatten(Divide(bs, runs, len)), len)
    ensures var once := Divide(bs, runs, len);
            var twice := Divide(bs, Flatten(once), len);
            SameFiles(once, twice) && (len >= 8 * bs ==> twice == once)
    decreases Weight(runs)
  {
    hide Scan, Divisible, Solid;
    DivideDivisible(bs, runs, len);
    var p := Scan(bs, runs, len, 0, 0);
    var once := Divide(bs, runs, len);
    if p.more {
      RoundShrinks(bs, runs, len);
      RoundRepeats(bs, runs, len);
      DivideTwice(bs, p.rest, len);
      var tail := Flatten(Divide(bs, p.rest, len));
      assert once[1..] == Divide(bs, p.rest, len);
      assert Flatten(once) == p.piece + tail;
      var q := Scan(bs, p.piece + tail, len, 0, 0);
      var twice := Divide(bs, Flatten(once), len);
      assert twice == [q.piece] + Divide(bs, tail, len);
      SameSolid(p.piece, q.piece);
    } else {
      var s := RoundTakes(bs, runs, len);
      FlattenOne(p.piece);
      assert once == [runs] && Flatten(once) == runs;
    }
  }

  /** Blocks of 4096 bytes and room for 8192: the first file of two single blocks ends with a run of no
      length, and with two of them when the split image is divided again. */
  lemma EmptyRunExample(a: Run, b: Run, z: Run)
    requires a == Run(0, 4096, FdAt(0, 0)) && b == Run(5, 4096, FdAt(0, 4096)) && z == b.(len := 0)
    ensures Scan(4096, [a, b], 8192, 0, 0) == Round([a, z], [b], true)
    ensures Scan(4096, [a, z, b], 8192, 0, 0) == Round([a, z, z], [b], true)
  {
    hide ChunkSize, AlignDown;
    ExampleChunks(a, b, z);
    CutNothing(4096, b);
    SplitParts(4096, [a, b], 1, 4084);
    assert Scan(4096, [a, b], 8192, 1, 4108) == StopAt(4096, [a, b], 8192, 1, 4108);
    assert [a, b][..1] + [z] == [a, z] && [b] + [a, b][2..] == [b];
    var again := [a, z, b];
    SplitParts(4096, again, 2, 4072);
    assert again[..2] + [z] == [a, z, z] && [b] + again[3..] == [b];
    assert Scan(4096, again, 8192, 2, 4120) == StopAt(4096, again, 8192, 2, 4120);
    assert Scan(4096, again, 8192, 1, 4108) == Scan(4096, again, 8192, 2, 4120);
  }

  lemma ExampleChunks(a: Run, b: Run, z: Run)
    requires a == Run(0, 4096, FdAt(0, 0)) && b == Run(5, 4096, FdAt(0, 4096)) && z == b.(len := 0)
    ensures ChunkSize(4096, a) == ChunkSize(4096, b) == 4108 && ChunkSize(4096, z) == CHUNK_HDR
    ensures AlignDown(4084, 4096) == AlignDown(4072, 4096) == 0
  {
    assert AlignUp(4096, 4096) == 4096 && AlignUp(0, 4096) == 0;
  }

  // ----- Empty pieces

  /** Only the last file can be empty, and of several files only if the one before it exceeds the room. */
  lemma {:induction false} EmptyPieces(bs: nat, runs: seq<Run>, len: nat)
    requires bs > 0 && Divisible(bs, runs, len) && Sized(runs)
    ensures var pieces := Divide(bs, runs, len);
            var last := |pieces| - 1;
            && (forall i | 0 <= i < last :: pieces[i] != [])
            && (runs == [] <==> pieces == [[]])
            && (last > 0 && pieces[last] == [] ==> Size(bs, pieces[last - 1]) > len)
            && (pieces[last] != [] ==> Size(bs, pieces[last]) <= len)
    decreases Weight(runs)
  {
    hide Scan, ChunkSize, AlignDown, Cut;
    var p := Scan(bs, runs, len, 0, 0);
    var s := RoundTakes(bs, runs, len);
    var pieces := Divide(bs, runs, len);
    if p.more {
      RoundShrinks(bs, runs, len);
      EmptyPieces(bs, p.rest, len);
      var tail := Divide(bs, p.rest, len);
      assert pieces == [p.piece] + tail;
      if tail == [[]] {
        assert s.AfterRun? && s.k == |runs| - 1;
        SizeStep(bs, runs, s.k);
        assert pieces[|pieces| - 2] == p.piece == runs[..s.k + 1];
      } else {
        assert forall i | 0 < i < |pieces| :: pieces[i] == tail[i - 1];
      }
    }
  }

  /** A round takes the last run whole although its header no longer fits, and then asks for another
      file. */
  predicate UsesUp(bs: nat, runs: seq<Run>, len: nat)
    requires bs > 0
  {
    runs != [] &&
    var k := |runs| - 1;
    FullAt(bs, runs, len, k) && Takes(bs, runs, len, k) && runs[k].len <= AlignDown(len - Size(bs, runs[..k]), bs)
  }

  ghost predicate SomeRoundUsesUp(bs: nat, runs: seq<Run>, len: nat)
    requires bs > 0 && Divisible(bs, runs, len)
    decreases Weight(runs)
  {
    var p := Scan(bs, runs, len, 0, 0);
    p.more && (UsesUp(bs, runs, len) || (RoundShrinks(bs, runs, len); SomeRoundUsesUp(bs, p.rest, len)))
  }

  lemma UsesUpMeans(bs: nat, runs: seq<Run>, len: nat)
    requires bs > 0 && Divisible(bs, runs, len)
    ensures var p := Scan(bs, runs, len, 0, 0); p.more && p.rest == [] <==> UsesUp(bs, runs, len)
  {
    hide Scan, Cut, ChunkSize, AlignDown;
    var s := RoundTakes(bs, runs, len);
    if UsesUp(bs, runs, len) {
      UsesUpLeavesNothing(bs, runs, len);
    }
  }

  lemma UsesUpLeavesNothing(bs: nat, runs: seq<Run>, len: nat)
    requires bs > 0 && UsesUp(bs, runs, len)
    ensures var p := Scan(bs, runs, len, 0, 0); p.more && p.rest == []
  {
    hide Cut, ChunkSize, AlignDown;
    var k := |runs| - 1;
    ScanSkips(bs, runs, len, k);
    SplitParts(bs, runs, k, len - Size(bs, runs[..k]));
  }

  /** Several files are made and the last one is empty, if and only if some round uses up its list. */
  lemma {:induction false} LastFileEmptyIff(bs: nat, runs: seq<Run>, len: nat)
    requires bs > 0 && Divisible(bs, runs, len) && Sized(runs)
    ensures var pieces := Divide(bs, runs, len);
            |pieces| > 1 && pieces[|pieces| - 1] == [] <==> SomeRoundUsesUp(bs, runs, len)
    decreases Weight(runs)
  {
    hide UsesUp, Scan;
    var p := Scan(bs, runs, len, 0, 0);
    var s := RoundTakes(bs, runs, len);
    UsesUpMeans(bs, runs, len);
    if p.more {
      RoundShrinks(bs, runs, len);
      var tail := Divide(bs, p.rest, len);
      LastFileEmptyIff(bs, p.rest, len);
      EmptyPieces(bs, p.rest, len);
      assert Divide(bs, runs, len) == [p.piece] + tail;
    }
  }

  /** A run of 128 bytes in blocks of 16, with room for 136: its bytes fit, its header does not, and a
      second, empty file is made. */
  lemma EmptyPieceExample()
    ensures var runs := [Run(0, 128, Fill(0)).(src := FdAt(0, 0))];
            Sorted(16, runs) && Sized(runs) && Divide(16, runs, 136) == [runs, []]
  {
    var r := Run(0, 128, FdAt(0, 0));
    var runs := [r];
    assert AlignUp(128, 16) == 128 && AlignDown(136, 16) == 128;
    assert ChunkSize(16, r) == 140;
    assert runs[..1] == runs && runs[1..] == [];
    assert Scan(16, runs, 136, 0, 0) == Round(runs, [], true);
    assert Scan(16, [], 136, 0, 0) == Round([], [], false);
    assert Divide(16, [], 136) == [[]];
  }

  // ----- The size of a file

  /** The number of gaps between neighbouring runs. */
  function Gaps(bs: nat, runs: seq<Run>): nat
    requires bs > 0
  {
    if |runs| < 2 then 0
    else
      (if End(bs, runs[|runs| - 2]) < runs[|runs| - 1].block then 1 else 0)
      + Gaps(bs, runs[..|runs| - 1])
  }

  /** The skip chunks of a file of `total` blocks. */
  function Skips(bs: nat, runs: seq<Run>, total: nat): nat
    requires bs > 0
  {
    if runs == [] then (if total > 0 then 1 else 0)
    else
      (if runs[0].block > 0 then 1 else 0) + Gaps(bs, runs)
      + (if End(bs, runs[|runs| - 1]) < total then 1 else 0)
  }

  /** The length of the sparse file for `runs`. */
  function FileSize(bs: nat, runs: seq<Run>, total: nat, crc: bool): nat
    requires bs > 0
  {
    FILE_HDR + Size(bs, runs) + CHUNK_HDR * Skips(bs, runs, total)
    + (if crc then CHUNK_HDR + 4 else 0)
  }

  /** A little room may be overrun by the header of a fill that is cut after no byte. */
  function Spill(len: nat): nat { if len < 24 then 3 - len / 8 else 0 }

  lemma PieceChunks(bs: nat, runs: seq<Run>, len: nat)
    requires bs >= 4 && Divisible(bs, runs, len)
    ensures Size(bs, Scan(bs, runs, len, 0, 0).piece) <= len + CHUNK_HDR + Spill(len)
  {
    hide AlignDown, AlignUp, ChunkSize, Scan, Divisible;
    var s := RoundTakes(bs, runs, len);
    var p := Scan(bs, runs, len, 0, 0);
    if s.AfterRun? {
      RoomForBlocks(bs, runs, len, s.k);
      SizeStep(bs, runs, s.k);
      ChunkWithin(bs, runs[s.k], len - Size(bs, runs[..s.k]), len);
    } else if s.Inside? {
      RoomForBlocks(bs, runs, len, s.k);
      var a := Cut(bs, runs[s.k], s.m).0;
      assert p.piece == runs[..s.k] + [a] && p.piece[..s.k] == runs[..s.k];
      ChunkWithin(bs, a, len - Size(bs, runs[..s.k]), len);
    }
  }

  lemma ChunkWithin(bs: nat, r: Run, room: nat, len: nat)
    requires bs >= 4 && r.len <= AlignDown(room, bs) && (room > len / 8 || AlignDown(room, bs) >= bs)
    ensures ChunkSize(bs, r) <= CHUNK_HDR + room + Spill(len)
  {
    AlignDownBounds(room, bs);
    AlignWithin(r.len, room / bs, bs);
  }

  lemma AlignWithin(x: nat, q: nat, y: nat)
    requires y > 0 && x <= y * q
    ensures AlignUp(x, y) <= y * q
  {
    assert (x + y - 1) / y <= q by {
      DivMonotone(x + y - 1, q * y + (y - 1), y);
      DivModUnique(q, y - 1, y);
    }
    MulMonotone(DivRoundUp(x, y), q, y);
  }

  /** The size bound: every file, even with a CRC chunk, is at most max_len plus one chunk header for
      each gap inside it; only where max_len leaves less than 24 bytes may it be up to three bytes more. */
  lemma {:induction false} PiecesFit(bs: nat, runs: seq<Run>, maxLen: nat, total: nat, crc: bool, i: nat)
    requires bs >= 4 && OVERHEAD <= maxLen && Divisible(bs, runs, maxLen - OVERHEAD)
    requires i < |Divide(bs, runs, maxLen - OVERHEAD)|
    ensures var piece := Divide(bs, runs, maxLen - OVERHEAD)[i];
            FileSize(bs, piece, total, crc) <= maxLen + CHUNK_HDR * Gaps(bs, piece) + Spill(maxLen - OVERHEAD)
    decreases Weight(runs)
  {
    hide Divisible, Spill;
    var len := maxLen - OVERHEAD;
    PieceChunks(bs, runs, len);
    var p := Scan(bs, runs, len, 0, 0);
    if i > 0 {
      RoundShrinks(bs, runs, len);
      assert Divide(bs, runs, len)[1..] == Divide(bs, p.rest, len);
      PiecesFit(bs, p.rest, maxLen, total, crc, i - 1);
    }
  }

  /** The promise of move_chunks_up_to_len: with room for eight blocks, every file but the last uses at least
      seven eighths of the room. */
  lemma {:induction false} PiecesAreFull(bs: nat, runs: seq<Run>, len: nat, i: nat)
    requires bs > 0 && len >= 8 * bs && i + 1 < |Divide(bs, runs, len)|
    ensures 8 * Size(bs, Divide(bs, runs, len)[i]) >= 7 * len
    decreases Weight(runs)
  {
    hide Scan, ChunkSize, Size;
    var p := Scan(bs, runs, len, 0, 0);
    RoundShrinks(bs, runs, len);
    RoundIsFull(bs, runs, len);
    assert Divide(bs, runs, len) == [p.piece] + Divide(bs, p.rest, len);
    if i > 0 {
      PiecesAreFull(bs, p.rest, len, i - 1);
    }
  }

  lemma RoundIsFull(bs: nat, runs: seq<Run>, len: nat)
    requires bs > 0 && len >= 8 * bs && Scan(bs, runs, len, 0, 0).more
    ensures 8 * Size(bs, Scan(bs, runs, len, 0, 0).piece) >= 7 * len
  {
    hide AlignDown, AlignUp, ChunkSize, Scan;
    var s := RoundTakes(bs, runs, len);
    var p := Scan(bs, runs, len, 0, 0);
    if s.AfterRun? {
      SizeStep(bs, runs, s.k);
    } else if s.Inside? {
      RoomForBlocks(bs, runs, len, s.k);
      var a := Cut(bs, runs[s.k], s.m).0;
      assert p.piece == runs[..s.k] + [a] && p.piece[..s.k] == runs[..s.k];
      if a.src.Fill? {
        SameFillChunk(bs, runs[s.k], a);
      } else {
        CutChunk(bs, a);
      }
    }
  }

  lemma SameFillChunk(bs: nat, r: Run, a: Run)
    requires bs > 0 && r.src.Fill? && a.src.Fill?
    ensures ChunkSize(bs, a) == ChunkSize(bs, r)
  {
  }

  /** The room is what is left of max_len exactly if the overhead fits into it. */
  lemma RoomOfIff(maxLen: nat)
    requires maxLen < TWO_32
    ensures RoomOf(maxLen) == maxLen - OVERHEAD <==> maxLen >= OVERHEAD
  {
  }

  lemma OneBlock(bs: nat, r: Run)
    requires bs > 0 && r.block == 0 && r.len == bs && !r.src.Fill?
    ensures AlignUp(bs, bs) == bs && ChunkSize(bs, r) == bs + 12 && End(bs, r) == 1
  {
    DivModUnique(1, 0, bs);
    DivModUnique(1, bs - 1, bs);
  }

  /** With max_len 79 the room is nearly 4 GB: a block of 4096 bytes goes into one file. */
  lemma NoRoomExample(r: Run)
    requires r == Run(0, 4096, FdAt(0, 0))
    ensures Divisible(4096, [r], RoomOf(79)) && Divide(4096, [r], RoomOf(79)) == [[r]]
    ensures FileSize(4096, [r], 1, false) == 4136
  {
    assert RoomOf(79) == TWO_32 - 1;
    var runs := [r];
    OneBlock(4096, r);
    assert runs[..0] == [] && Size(4096, runs) == 4108;
    assert Scan(4096, runs, RoomOf(79), 1, 4108) == Round(runs, [], false);
    assert Scan(4096, runs, RoomOf(79), 0, 0) == Round(runs, [], false);
  }

  /** Blocks of four bytes and 19 bytes of room: a file that is one byte longer than max_len. */
  lemma SpillExample(a: Run, b: Run)
    requires a == Run(1, 4, Fill(0)) && b == Run(2, 4, Fill(1))
    ensures var piece := Scan(4, [a, b], 19, 0, 0).piece;
            && piece == [a, b.(len := 0)] && Gaps(4, piece) == 0
            && FileSize(4, piece, 3, true) == OVERHEAD + 19 + 1
  {
    var runs, z := [a, b], b.(len := 0);
    assert AlignDown(3, 4) == 0;
    SplitParts(4, runs, 1, 3);
    CutNothing(4, b);
    assert Scan(4, runs, 19, 1, 16) == StopAt(4, runs, 19, 1, 16);
    assert Scan(4, runs, 19, 0, 0) == Scan(4, runs, 19, 1, 16);
    assert [a, z][..1] == [a] && [a][..0] == [];
    assert Size(4, [a]) == 16 && Size(4, [a, z]) == 32;
    assert End(4, a) == 2 && End(4, z) == 2;
  }

  /** The overhead is exactly enough: a file that reaches the limit. */
  lemma OverheadIsTight()
    ensures var runs := [Run(1, 40, FdAt(0, 0))];
            var maxLen := OVERHEAD + 8 * 4;
            FileSize(4, Divide(4, runs, maxLen - OVERHEAD)[0], 12, true) == maxLen
  {
    var r := Run(1, 40, FdAt(0, 0));
    var runs := [r];
    assert AlignUp(40, 4) == 40 && AlignDown(32, 4) == 32 && AlignUp(32, 4) == 32;
    var (a, b) := Cut(4, r, 32);
    SplitParts(4, runs, 0, 32);
    assert runs[..0] + [a] == [a] && [b] + runs[1..] == [b];
    assert Scan(4, runs, 32, 0, 0) == Round([a], [b], true);
    assert [a][..0] == [];
    assert Size(4, [a]) == 44;
    assert End(4, a) == 9;
  }
}
