/** Reading back what has been written: the reader accepts every sparse file the writer makes, and
    the list it builds means the same image. */
module SparseRoundTrip {
  import opened Common
  import opened Bytes
  import opened SparseList
  import opened SparseQueue
  import opened SparseFormat

  // ----- The reader follows the writer

  /** The run the reader makes of the chunk of run `i`. */
  function ReadRun(env: Env, bs: nat, runs: seq<Run>, fd: int, i: nat): Run
    requires bs > 0 && i < |runs|
  {
    Run(runs[i].block, AlignUp(runs[i].len, bs),
        match runs[i].src
        case Fill(val) => Fill(val)
        case _ => FdAt(fd, Pos(env, bs, runs, i) + |Gap(bs, runs, i)| + CHUNK_HDR))
  }

  /** The reader's list after `i` runs. */
  function Queued(env: Env, bs: nat, runs: seq<Run>, fd: int, i: nat): seq<Run>
    requires bs > 0 && i <= |runs|
  {
    if i == 0 then [] else QueueRuns(bs, Queued(env, bs, runs, fd, i - 1), ReadRun(env, bs, runs, fd, i - 1))
  }

  lemma LastBelow(bs: nat, runs: seq<Run>, i: nat)
    requires bs > 0 && Sorted(bs, runs) && i < |runs|
    ensures Last(bs, runs, i) <= runs[i].block <= End(bs, runs[i]) <= Last(bs, runs, |runs|)
  {
    if i > 0 {
      assert Apart(bs, runs[i - 1], runs[i]);
    }
    if i + 1 < |runs| {
      assert Apart(bs, runs[i], runs[|runs| - 1]);
    }
  }

  lemma BlocksOfLength(bs: nat, r: Run)
    requires bs > 0
    ensures Blocks(bs, r) * bs == AlignUp(r.len, bs) && AlignUp(r.len, bs) % bs == 0
    ensures AlignUp(r.len, bs) / bs == Blocks(bs, r)
    ensures DivRoundUp(AlignUp(r.len, bs), bs) == Blocks(bs, r)
  {
    DivModUnique(Blocks(bs, r), 0, bs);
    DivOfSum(Blocks(bs, r), 0, bs);
    RoundUpPositive(0, bs);
  }

  /** Reading a skip chunk. */
  lemma ReadSkip(s: seq<byte>, fd: int, bs: nat, pos: nat, cur: nat, q: seq<Run>, blocks: nat)
    requires bs > 0 && StandsAt(s, pos, SkipChunk(blocks)) && cur + blocks < TWO_31
    ensures ReadOne(s, fd, bs, CHUNK_HDR, pos, cur, q) == Next(pos + CHUNK_HDR, cur + blocks, q)
  {
    hide StandsAt, ChunkHeader, Get16, Get32, QueueRuns;
    HeaderFields(s, pos, CHUNK_DONT_CARE, blocks, CHUNK_HDR);
  }

  /** The header of a chunk, and the position of its data. */
  lemma ChunkParts(s: seq<byte>, env: Env, bs: nat, pos: nat, r: Run)
    requires bs > 0 && RunFits(bs, r) && Blocks(bs, r) < TWO_31 && StandsAt(s, pos, Chunk(env, bs, r))
    ensures pos + CHUNK_HDR <= |s| && Get32(s, pos + 4) == Blocks(bs, r)
    ensures r.src.Fill? ==>
              && Get16(s, pos) == CHUNK_FILL && Get32(s, pos + 8) == CHUNK_HDR + 4
              && pos + CHUNK_HDR + 4 <= |s| && Get32(s, pos + CHUNK_HDR) == r.src.val
              && |Chunk(env, bs, r)| == CHUNK_HDR + 4
    ensures !r.src.Fill? ==>
              && Get16(s, pos) == CHUNK_RAW && Get32(s, pos + 8) == CHUNK_HDR + AlignUp(r.len, bs)
              && StandsAt(s, pos + CHUNK_HDR, Payload(env, bs, r))
              && |Chunk(env, bs, r)| == CHUNK_HDR + AlignUp(r.len, bs)
  {
    hide StandsAt, ChunkHeader, Le32, Get16, Get32, Payload, AlignUp, Blocks;
    if r.src.Fill? {
      var h := ChunkHeader(CHUNK_FILL, Blocks(bs, r), CHUNK_HDR + 4);
      StandsParts(s, pos, h, Le32(r.src.val));
      HeaderFields(s, pos, CHUNK_FILL, Blocks(bs, r), CHUNK_HDR + 4);
      Field32(s, pos + CHUNK_HDR, r.src.val);
    } else {
      var h := ChunkHeader(CHUNK_RAW, Blocks(bs, r), CHUNK_HDR + AlignUp(r.len, bs));
      StandsParts(s, pos, h, Payload(env, bs, r));
      HeaderFields(s, pos, CHUNK_RAW, Blocks(bs, r), CHUNK_HDR + AlignUp(r.len, bs));
    }
  }

  /** Reading the chunk of a run. */
  lemma ReadRunChunk(s: seq<byte>, fd: int, env: Env, bs: nat, pos: nat, cur: nat, q: seq<Run>, r: Run)
    requires bs > 0 && RunFits(bs, r) && StandsAt(s, pos, Chunk(env, bs, r)) && cur + Blocks(bs, r) < TWO_31
    ensures ReadOne(s, fd, bs, CHUNK_HDR, pos, cur, q)
         == var src := if r.src.Fill? then r.src else FdAt(fd, pos + CHUNK_HDR);
            Next(pos + |Chunk(env, bs, r)|, cur + Blocks(bs, r), QueueRuns(bs, q, Run(cur, AlignUp(r.len, bs), src)))
  {
    hide StandsAt, Chunk, Get16, Get32, QueueRuns, AlignUp, Blocks;
    ChunkParts(s, env, bs, pos, r);
    BlocksOfLength(bs, r);
    AlignUpBounds(r.len, bs);
    var a := AlignUp(r.len, bs);
    assert Blocks(bs, r) * bs % TWO_32 == a;
    assert (CHUNK_HDR + a + TWO_32 - CHUNK_HDR) % TWO_32 == a;
  }

  /** The reader when the chunks of the first `i` runs are behind it. */
  function Stage(env: Env, bs: nat, runs: seq<Run>, total: nat, fd: int, i: nat): ReadResult
    requires bs > 0 && i <= |runs| && Counted(bs, runs, i) <= CountChunks(bs, runs, total)
  {
    ReadChunks(Stream(env, bs, runs, total), fd, bs, CHUNK_HDR, total,
               CountChunks(bs, runs, total) - Counted(bs, runs, i), Pos(env, bs, runs, i), Last(bs, runs, i),
               Queued(env, bs, runs, fd, i))
  }

  lemma {:induction false} CountedGrows(bs: nat, runs: seq<Run>, i: nat, n: nat)
    requires bs > 0 && i <= n <= |runs|
    ensures Counted(bs, runs, i) <= Counted(bs, runs, n)
    decreases n - i
  {
    if i < n {
      CountedGrows(bs, runs, i + 1, n);
    }
  }

  /** One more chunk. */
  lemma OneChunk(s: seq<byte>, fd: int, bs: nat, total: nat, n: nat, pos: nat, cur: nat, q: seq<Run>, step: Step)
    requires bs > 0 && n > 0 && ReadOne(s, fd, bs, CHUNK_HDR, pos, cur, q) == step && step.Next?
    ensures ReadChunks(s, fd, bs, CHUNK_HDR, total, n, pos, cur, q)
         == ReadChunks(s, fd, bs, CHUNK_HDR, total, n - 1, step.pos, step.cur, step.runs)
  {
  }

  /** The skip chunk before run `i`, if there is one. */
  lemma SkipGap(env: Env, bs: nat, runs: seq<Run>, total: nat, fd: int, i: nat, n: nat, q: seq<Run>)
    requires Writable(bs, runs, total) && i < |runs| && n > (if Gap(bs, runs, i) != [] then 1 else 0)
    ensures ReadChunks(Stream(env, bs, runs, total), fd, bs, CHUNK_HDR, total, n,
                       Pos(env, bs, runs, i), Last(bs, runs, i), q)
         == ReadChunks(Stream(env, bs, runs, total), fd, bs, CHUNK_HDR, total,
                       if Gap(bs, runs, i) != [] then n - 1 else n,
                       Pos(env, bs, runs, i) + |Gap(bs, runs, i)|, runs[i].block, q)
  {
    hide Stream, StandsAt, Chunk, ReadOne, ReadChunks, Pos, Sorted, QueueRuns, ChunkHeader, Counted, Sized;
    LastBelow(bs, runs, i);
    var s, pos, cur := Stream(env, bs, runs, total), Pos(env, bs, runs, i), Last(bs, runs, i);
    ChunkStands(env, bs, runs, total, i);
    StandsParts(s, pos, Gap(bs, runs, i), Chunk(env, bs, runs[i]));
    if Gap(bs, runs, i) != [] {
      ReadSkip(s, fd, bs, pos, cur, q, runs[i].block - cur);
      OneChunk(s, fd, bs, total, n, pos, cur, q, Next(pos + CHUNK_HDR, runs[i].block, q));
    }
  }

  lemma StageStep(env: Env, bs: nat, runs: seq<Run>, total: nat, fd: int, i: nat)
    requires Writable(bs, runs, total) && i < |runs|
    ensures Counted(bs, runs, i) < Counted(bs, runs, i + 1) <= CountChunks(bs, runs, total)
    ensures Stage(env, bs, runs, total, fd, i) == Stage(env, bs, runs, total, fd, i + 1)
  {
    hide Stream, StandsAt, Chunk, ReadOne, ReadChunks, Pos, Sorted, QueueRuns, ChunkHeader;
    CountedGrows(bs, runs, i + 1, |runs|);
    LastBelow(bs, runs, i);
    var s, pos := Stream(env, bs, runs, total), Pos(env, bs, runs, i);
    var n := CountChunks(bs, runs, total) - Counted(bs, runs, i);
    var gap, q := Gap(bs, runs, i), Queued(env, bs, runs, fd, i);
    SkipGap(env, bs, runs, total, fd, i, n, q);
    ChunkStands(env, bs, runs, total, i);
    StandsParts(s, pos, gap, Chunk(env, bs, runs[i]));
    assert RunFits(bs, runs[i]);
    ReadRunChunk(s, fd, env, bs, pos + |gap|, runs[i].block, q, runs[i]);
    OneChunk(s, fd, bs, total, if gap != [] then n - 1 else n, pos + |gap|, runs[i].block, q,
             Next(Pos(env, bs, runs, i + 1), Last(bs, runs, i + 1), Queued(env, bs, runs, fd, i + 1)));
  }

  lemma {:induction false} Stages(env: Env, bs: nat, runs: seq<Run>, total: nat, fd: int, i: nat)
    requires Writable(bs, runs, total) && i <= |runs|
    ensures Counted(bs, runs, i) <= CountChunks(bs, runs, total)
    ensures Stage(env, bs, runs, total, fd, i) == Good(Queued(env, bs, runs, fd, |runs|))
    decreases |runs| - i
  {
    hide Stream, StandsAt, ReadOne, Pos, Sorted, Queued, ChunkHeader;
    if i < |runs| {
      StageStep(env, bs, runs, total, fd, i);
      Stages(env, bs, runs, total, fd, i + 1);
    } else {
      var last := Last(bs, runs, i);
      TailStands(env, bs, runs, total);
      if last < total {
        var s, pos, q := Stream(env, bs, runs, total), Pos(env, bs, runs, i), Queued(env, bs, runs, fd, i);
        ReadSkip(s, fd, bs, pos, last, q, total - last);
        OneChunk(s, fd, bs, total, 1, pos, last, q, Next(pos + CHUNK_HDR, total, q));
      }
    }
  }

  /** The reader accepts what the writer made: the header counts every chunk, and the blocks of the
      chunks add up to the size of the image. */
  lemma ReaderAccepts(env: Env, bs: nat, runs: seq<Run>, total: nat, fd: int)
    requires Writable(bs, runs, total)
    ensures Import(Stream(env, bs, runs, total), fd) == Good(Queued(env, bs, runs, fd, |runs|))
  {
    hide Get16, Get32, FileHeader, ReadChunks, Sorted, Sized, RunFits, Written, Stream, Pos;
    HeaderStands(env, bs, runs, total);
    var s := Stream(env, bs, runs, total);
    FileHeaderFields(s, bs, total, CountChunks(bs, runs, total));
    Stages(env, bs, runs, total, fd, 0);
    NothingWrittenYet(env, bs, runs);
  }

  lemma HeaderStands(env: Env, bs: nat, runs: seq<Run>, total: nat)
    requires bs > 0
    ensures FileHeader(bs, total, CountChunks(bs, runs, total)) <= Stream(env, bs, runs, total)
  {
    hide FileHeader, Written, Tail;
  }

  lemma NothingWrittenYet(env: Env, bs: nat, runs: seq<Run>)
    requires bs > 0
    ensures Pos(env, bs, runs, 0) == FILE_HDR
  {
  }

  // ----- Contents

  /** The files as they are after the image has been written to descriptor `fd`. */
  function After(env: Env, fd: int, stream: seq<byte>): Env { env.(fds := env.fds[fd := stream]) }

  /** A run read back covers the blocks of the run written. */
  lemma ReadRunCovers(env: Env, bs: nat, runs: seq<Run>, total: nat, fd: int, i: nat)
    requires Writable(bs, runs, total) && i < |runs|
    ensures var r := ReadRun(env, bs, runs, fd, i);
            && End(bs, r) == End(bs, runs[i]) && r.block == runs[i].block && 0 < r.len < TWO_32
            && r.len == AlignUp(runs[i].len, bs)
            && forall b :: Has(bs, r, b) <==> Has(bs, runs[i], b)
  {
    hide Pos, Gap, Sorted, Last;
    BlocksOfLength(bs, runs[i]);
    AlignUpBounds(runs[i].len, bs);
    assert RunFits(bs, runs[i]);
  }

  /** A raw run over data that stands in a file, block by block. */
  lemma RawContents(env: Env, env': Env, s: seq<byte>, fd: int, bs: nat, x: Run, p: nat, b: nat)
    requires bs > 0 && !x.src.Fill? && Has(bs, x, b) && fd in env'.fds && env'.fds[fd] == s
    requires StandsAt(s, p, Payload(env, bs, x))
    ensures BlockOf(env', bs, Run(x.block, AlignUp(x.len, bs), FdAt(fd, p)), b) == BlockOf(env, bs, x, b)
  {
    hide StandsAt, AlignUp, Byte, Payload;
    var r := Run(x.block, AlignUp(x.len, bs), FdAt(fd, p));
    var now, was := BlockOf(env', bs, r, b), BlockOf(env, bs, x, b);
    var n := b - x.block;
    BlockWithin(bs, x, n);
    forall o | 0 <= o < bs ensures now[o] == was[o] {
      RawByte(env, env', s, fd, bs, x, p, n * bs + o, o);
    }
  }

  lemma BlockWithin(bs: nat, x: Run, n: nat)
    requires bs > 0 && n < Blocks(bs, x)
    ensures n * bs >= 0 && n * bs + bs <= AlignUp(x.len, bs)
  {
    hide AlignUp;
    BlocksOfLength(bs, x);
    MulMonotone(n + 1, Blocks(bs, x), bs);
    MulMonotone(0, n, bs);
    assert (n + 1) * bs == n * bs + bs;
  }

  lemma RawByte(env: Env, env': Env, s: seq<byte>, fd: int, bs: nat, x: Run, p: nat, q: nat, o: nat)
    requires bs > 0 && !x.src.Fill? && fd in env'.fds && env'.fds[fd] == s
    requires StandsAt(s, p, Payload(env, bs, x)) && q < AlignUp(x.len, bs)
    ensures Byte(env', Run(x.block, AlignUp(x.len, bs), FdAt(fd, p)), q, o) == Byte(env, x, q, o)
  {
    StandsByte(s, p, Payload(env, bs, x), q);
  }

  lemma FillByte(env: Env, env': Env, x: Run, len: nat, q: int, o: nat)
    requires x.src.Fill?
    ensures Byte(env', x.(len := len), q, o) == Byte(env, x, q, o)
  {
  }

  lemma FillContents(env: Env, env': Env, bs: nat, x: Run, len: nat, b: nat)
    requires bs > 0 && x.src.Fill? && x.block <= b
    ensures BlockOf(env', bs, x.(len := len), b) == BlockOf(env, bs, x, b)
  {
    var now, was := BlockOf(env', bs, x.(len := len), b), BlockOf(env, bs, x, b);
    forall o | 0 <= o < bs ensures now[o] == was[o] {
      FillByte(env, env', x, len, (b - x.block) * bs + o, o);
    }
  }

  /** A run read back holds what was written. */
  lemma ReadRunContents(env: Env, bs: nat, runs: seq<Run>, total: nat, fd: int, i: nat, b: nat)
    requires Writable(bs, runs, total) && i < |runs| && Has(bs, runs[i], b)
    ensures BlockOf(After(env, fd, Stream(env, bs, runs, total)), bs, ReadRun(env, bs, runs, fd, i), b)
         == BlockOf(env, bs, runs[i], b)
  {
    hide Stream, Pos, Gap, Sorted, Last, StandsAt, Payload, AlignUp;
    var x := runs[i];
    if !x.src.Fill? {
      PayloadStands(env, bs, runs, total, i);
      var p := Pos(env, bs, runs, i) + |Gap(bs, runs, i)| + CHUNK_HDR;
      RawContents(env, After(env, fd, Stream(env, bs, runs, total)), Stream(env, bs, runs, total), fd, bs, x, p, b);
    } else {
      FillContents(env, After(env, fd, Stream(env, bs, runs, total)), bs, x, AlignUp(x.len, bs), b);
    }
  }

  lemma PayloadStands(env: Env, bs: nat, runs: seq<Run>, total: nat, i: nat)
    requires Writable(bs, runs, total) && i < |runs| && !runs[i].src.Fill?
    ensures StandsAt(Stream(env, bs, runs, total), Pos(env, bs, runs, i) + |Gap(bs, runs, i)| + CHUNK_HDR,
                     Payload(env, bs, runs[i]))
  {
    hide Stream, Pos, Gap, Sorted, StandsAt, Payload, AlignUp, Chunk;
    ChunkStands(env, bs, runs, total, i);
    var s, pos, gap := Stream(env, bs, runs, total), Pos(env, bs, runs, i), Gap(bs, runs, i);
    StandsParts(s, pos, gap, Chunk(env, bs, runs[i]));
    LastBelow(bs, runs, i);
    assert RunFits(bs, runs[i]);
    ChunkParts(s, env, bs, pos + |gap|, runs[i]);
  }

  // ----- The reader's list

  /** The fill of run `i` continues the fill before it. */
  predicate Continues(bs: nat, runs: seq<Run>, i: nat)
    requires bs > 0 && i < |runs|
  {
    i > 0 && runs[i].src.Fill? && runs[i - 1].src == runs[i].src && End(bs, runs[i - 1]) == runs[i].block
  }

  /** The length of the fills that run together up to run `i`. */
  function FillLength(bs: nat, runs: seq<Run>, i: nat): nat
    requires bs > 0 && i < |runs|
  {
    AlignUp(runs[i].len, bs) + if Continues(bs, runs, i) then FillLength(bs, runs, i - 1) else 0
  }

  /** No stretch of equal fills is 4 GB or longer. */
  ghost predicate FillsFit(bs: nat, runs: seq<Run>, n: nat)
    requires bs > 0 && n <= |runs|
  {
    forall i | 0 <= i < n :: FillLength(bs, runs, i) < TWO_32
  }

  /** The last run of the reader's list as long as nothing has overflowed. */
  ghost predicate LastIs(env: Env, bs: nat, runs: seq<Run>, fd: int, i: nat, q: seq<Run>)
    requires bs > 0 && i < |runs|
  {
    q != [] &&
    var z := q[|q| - 1];
    && End(bs, z) == End(bs, runs[i])
    && if runs[i].src.Fill?
       then z.src == runs[i].src && z.len == FillLength(bs, runs, i) && z.len % bs == 0
       else z == ReadRun(env, bs, runs, fd, i)
  }

  /** What the reader's list is like after `i` runs. */
  ghost predicate ListOk(bs: nat, q: seq<Run>, last: nat)
    requires bs > 0
  {
    Sorted(bs, q) && Fields(q) && forall k | 0 <= k < |q| :: End(bs, q[k]) <= last && q[k].block < last
  }

  lemma BehindAll(bs: nat, q: seq<Run>, last: nat, x: Run)
    requires bs > 0 && ListOk(bs, q, last) && last <= x.block
    ensures Disjoint(bs, q, x) && (q != [] ==> q[0].block <= x.block && Position(q, x.block, 1) == |q|)
  {
    forall k | 0 <= k < |q| ensures Apart(bs, q[k], x) {
      assert End(bs, q[k]) <= last && q[k].block < last;
    }
  }

  /** Queueing behind all runs: the run is appended, or merged into the last one. */
  lemma QueueBehind(bs: nat, q: seq<Run>, last: nat, x: Run)
    requires bs > 0 && ListOk(bs, q, last) && last <= x.block
    ensures QueueRuns(bs, q, x) ==
            if q != [] && Mergeable(bs, q[|q| - 1], x) then q[..|q| - 1] + [Merged(q[|q| - 1], x)] else q + [x]
    ensures QueueWraps(bs, q, x) <==>
            q != [] && Mergeable(bs, q[|q| - 1], x) && q[|q| - 1].len + x.len >= TWO_32
  {
    BehindAll(bs, q, last, x);
    if q != [] {
      var n := |q|;
      var s := Inserted(q, n, x);
      assert q[..n] == q && q[n..] == [];
      assert s == q + [x];
      assert MergeAt(bs, s, n) == s;
      assert s[n - 1] == q[n - 1] && s[n] == x && s[..n - 1] == q[..n - 1] && s[n + 1..] == [];
    }
  }

  lemma QueuedStaysOk(bs: nat, q: seq<Run>, last: nat, x: Run)
    requires 0 < bs < TWO_32 && ListOk(bs, q, last) && last <= x.block && 0 < x.len < TWO_32
    ensures ListOk(bs, QueueRuns(bs, q, x), End(bs, x))
  {
    BehindAll(bs, q, last, x);
    QueueKeepsOrder(bs, q, x);
    QueueBehind(bs, q, last, x);
    RoundUpPositive(x.len, bs);
    var out := QueueRuns(bs, q, x);
    forall k | 0 <= k < |out| ensures End(bs, out[k]) <= End(bs, x) && out[k].block < End(bs, x) {
      if k < |q| - 1 || (k < |q| && out[k] == q[k]) {
        assert out[k] == q[k];
      } else if k == |q| - 1 {
        assert Apart(bs, q[k], x);
        MergedEnd(bs, q[k], x);
      }
    }
  }

  lemma {:induction false} QueuedOk(env: Env, bs: nat, runs: seq<Run>, total: nat, fd: int, i: nat)
    requires Writable(bs, runs, total) && i <= |runs|
    ensures ListOk(bs, Queued(env, bs, runs, fd, i), Last(bs, runs, i))
    decreases i
  {
    if i > 0 {
      QueuedOk(env, bs, runs, total, fd, i - 1);
      LastBelow(bs, runs, i - 1);
      ReadRunCovers(env, bs, runs, total, fd, i - 1);
      QueuedStaysOk(bs, Queued(env, bs, runs, fd, i - 1), Last(bs, runs, i - 1), ReadRun(env, bs, runs, fd, i - 1));
    }
  }

  /** While nothing has overflowed, a run is merged exactly when it continues a fill. */
  lemma MergesWhenContinues(env: Env, bs: nat, runs: seq<Run>, total: nat, fd: int, i: nat, q: seq<Run>)
    requires Writable(bs, runs, total) && 0 < i < |runs| && LastIs(env, bs, runs, fd, i - 1, q)
    ensures Mergeable(bs, q[|q| - 1], ReadRun(env, bs, runs, fd, i)) <==> Continues(bs, runs, i)
  {
    var z, x := q[|q| - 1], ReadRun(env, bs, runs, fd, i);
    if runs[i - 1].src.Fill? {
      WholeEnd(bs, z);
    } else {
      ChunkStands(env, bs, runs, total, i - 1);
      assert Pos(env, bs, runs, i) >= z.src.offset + z.len;
    }
  }

  lemma WholeEnd(bs: nat, z: Run)
    requires bs > 0 && z.len % bs == 0
    ensures End(bs, z) == z.block + z.len / bs
  {
    var k := z.len / bs;
    assert z.len == k * bs;
    DivOfSum(k, 0, bs);
    RoundUpPositive(0, bs);
  }

  lemma SumIsWhole(a: nat, b: nat, bs: nat)
    requires bs > 0 && a % bs == 0 && b % bs == 0
    ensures (a + b) % bs == 0
  {
    var k, l := a / bs, b / bs;
    assert a + b == (k + l) * bs + 0;
    DivModUnique(k + l, 0, bs);
  }

  lemma {:induction false} FillLengthIsWhole(bs: nat, runs: seq<Run>, i: nat)
    requires bs > 0 && i < |runs|
    ensures FillLength(bs, runs, i) % bs == 0
  {
    BlocksOfLength(bs, runs[i]);
    if Continues(bs, runs, i) {
      FillLengthIsWhole(bs, runs, i - 1);
      SumIsWhole(AlignUp(runs[i].len, bs), FillLength(bs, runs, i - 1), bs);
    }
  }

  /** The image of the first `i` runs as they will be read. */
  ghost predicate SameSoFar(env: Env, bs: nat, runs: seq<Run>, total: nat, fd: int, i: nat)
    requires bs > 0 && i <= |runs|
  {
    forall b :: Image(After(env, fd, Stream(env, bs, runs, total)), bs, Queued(env, bs, runs, fd, i), b)
             == Image(env, bs, runs[..i], b)
  }

  lemma LastIsApart(bs: nat, q: seq<Run>, last: nat, x: Run)
    requires bs > 0 && ListOk(bs, q, last) && last <= x.block && q != []
    ensures Apart(bs, q[|q| - 1], x) && q[|q| - 1].len < TWO_32
  {
  }

  /** One more run, nothing overflowed. */
  lemma ReadOneMore(env: Env, bs: nat, runs: seq<Run>, total: nat, fd: int, i: nat)
    requires Writable(bs, runs, total) && i < |runs| && FillsFit(bs, runs, i + 1)
    requires i > 0 ==> LastIs(env, bs, runs, fd, i - 1, Queued(env, bs, runs, fd, i))
    ensures LastIs(env, bs, runs, fd, i, Queued(env, bs, runs, fd, i + 1))
    ensures !QueueWraps(bs, Queued(env, bs, runs, fd, i), ReadRun(env, bs, runs, fd, i))
  {
    hide Stream, Pos, Gap, Sorted, AlignUp, QueueRuns, QueueWraps, ListOk;
    var q, x := Queued(env, bs, runs, fd, i), ReadRun(env, bs, runs, fd, i);
    QueuedOk(env, bs, runs, total, fd, i);
    LastBelow(bs, runs, i);
    QueueBehind(bs, q, Last(bs, runs, i), x);
    ReadRunCovers(env, bs, runs, total, fd, i);
    BlocksOfLength(bs, runs[i]);
    FillLengthIsWhole(bs, runs, i);
    assert FillLength(bs, runs, i) < TWO_32;
    if i > 0 {
      MergesWhenContinues(env, bs, runs, total, fd, i, q);
      if Continues(bs, runs, i) {
        var z := q[|q| - 1];
        LastIsApart(bs, q, Last(bs, runs, i), x);
        MergeKeepsBlocks(env, bs, z, x, 0);
      }
    }
  }

  lemma ReadOneMoreImage(env: Env, bs: nat, runs: seq<Run>, total: nat, fd: int, i: nat)
    requires Writable(bs, runs, total) && i < |runs| && SameSoFar(env, bs, runs, total, fd, i)
    requires !QueueWraps(bs, Queued(env, bs, runs, fd, i), ReadRun(env, bs, runs, fd, i))
    ensures SameSoFar(env, bs, runs, total, fd, i + 1)
  {
    hide QueueRuns, QueueWraps, Stream, ReadRun, Image, BlockOf;
    var env' := After(env, fd, Stream(env, bs, runs, total));
    var q, x := Queued(env, bs, runs, fd, i), ReadRun(env, bs, runs, fd, i);
    QueuedOk(env, bs, runs, total, fd, i);
    LastBelow(bs, runs, i);
    ReadRunCovers(env, bs, runs, total, fd, i);
    BehindAll(bs, q, Last(bs, runs, i), x);
    var after, upTo := Queued(env, bs, runs, fd, i + 1), runs[..i + 1];
    assert upTo == runs[..i] + [runs[i]];
    forall b ensures Image(env', bs, after, b) == Image(env, bs, upTo, b) {
      QueueImageAt(env', bs, q, x, b);
      ImageConcat(env, bs, runs[..i], [runs[i]], b);
      ImageOfPair(env, bs, runs[i], runs[i], b);
      if Has(bs, runs[i], b) {
        ReadRunContents(env, bs, runs, total, fd, i, b);
        NoneBefore(env, bs, runs, i, b);
      }
    }
  }

  lemma NoneBefore(env: Env, bs: nat, runs: seq<Run>, i: nat, b: nat)
    requires bs > 0 && Sorted(bs, runs) && i < |runs| && Has(bs, runs[i], b)
    ensures Image(env, bs, runs[..i], b).None?
  {
    var before := runs[..i];
    ImageCovered(env, bs, before, b);
    forall k | 0 <= k < |before| ensures !Has(bs, before[k], b) {
      assert Apart(bs, runs[k], runs[i]);
    }
  }

  lemma {:induction false} ReadAllSame(env: Env, bs: nat, runs: seq<Run>, total: nat, fd: int, i: nat)
    requires Writable(bs, runs, total) && i <= |runs| && FillsFit(bs, runs, i)
    ensures SameSoFar(env, bs, runs, total, fd, i)
    ensures i > 0 ==> LastIs(env, bs, runs, fd, i - 1, Queued(env, bs, runs, fd, i))
    decreases i
  {
    if i > 0 {
      ReadAllSame(env, bs, runs, total, fd, i - 1);
      ReadOneMore(env, bs, runs, total, fd, i - 1);
      ReadOneMoreImage(env, bs, runs, total, fd, i - 1);
    } else {
      assert runs[..0] == [];
    }
  }

  /** The first stretch of fills that is too long loses a block when it is read. */
  lemma FirstOverflowLoses(env: Env, bs: nat, runs: seq<Run>, total: nat, fd: int, i: nat) returns (b: nat)
    requires Writable(bs, runs, total) && i < |runs| && FillsFit(bs, runs, i) && FillLength(bs, runs, i) >= TWO_32
    ensures Has(bs, runs[i], b)
    ensures Image(After(env, fd, Stream(env, bs, runs, total)), bs, Queued(env, bs, runs, fd, i + 1), b).None?
  {
    hide Stream, Pos, Gap, AlignUp, QueueWraps, SameSoFar;
    var env' := After(env, fd, Stream(env, bs, runs, total));
    var q, x := Queued(env, bs, runs, fd, i), ReadRun(env, bs, runs, fd, i);
    var last := Last(bs, runs, i);
    ReadAllSame(env, bs, runs, total, fd, i);
    QueuedOk(env, bs, runs, total, fd, i);
    LastBelow(bs, runs, i);
    ReadRunCovers(env, bs, runs, total, fd, i);
    assert RunFits(bs, runs[i]);
    assert i > 0 && Continues(bs, runs, i);
    MergesWhenContinues(env, bs, runs, total, fd, i, q);
    QueueBehind(bs, q, last, x);
    b := LostAtTheEnd(env', bs, q, last, x);
  }

  lemma LostAtTheEnd(env: Env, bs: nat, q: seq<Run>, last: nat, x: Run) returns (b: nat)
    requires 0 < bs < TWO_32 && ListOk(bs, q, last) && last <= x.block && 0 < x.len < TWO_32
    requires q != [] && Mergeable(bs, q[|q| - 1], x) && q[|q| - 1].len + x.len >= TWO_32
    ensures Has(bs, x, b) && Image(env, bs, QueueRuns(bs, q, x), b).None?
  {
    hide QueueRuns, QueueWraps;
    QueueBehind(bs, q, last, x);
    LastIsApart(bs, q, last, x);
    var n := |q|;
    WrapLosesBlock(bs, q[n - 1], x);
    RoundUpPositive(x.len, bs);
    b := End(bs, x) - 1;
    var out := QueueRuns(bs, q, x);
    ImageCovered(env, bs, out, b);
    forall k | 0 <= k < |out| ensures !Has(bs, out[k], b) {
      assert k < n - 1 ==> out[k] == q[k] && End(bs, q[k]) <= last;
    }
  }

  /** A block that is not there when the reader has passed it stays away. */
  lemma {:induction false} LostForGood(env: Env, bs: nat, runs: seq<Run>, total: nat, fd: int, b: nat, i: nat, n: nat)
    requires Writable(bs, runs, total) && 0 < i <= n <= |runs| && b < Last(bs, runs, i)
    requires Image(After(env, fd, Stream(env, bs, runs, total)), bs, Queued(env, bs, runs, fd, i), b).None?
    ensures Image(After(env, fd, Stream(env, bs, runs, total)), bs, Queued(env, bs, runs, fd, n), b).None?
    decreases n
  {
    hide QueueRuns, Stream, ReadRun, Image, ListOk, RunFits, AlignUp, CountChunks, Sized;
    if i < n {
      var env' := After(env, fd, Stream(env, bs, runs, total));
      LostForGood(env, bs, runs, total, fd, b, i, n - 1);
      var q, x := Queued(env, bs, runs, fd, n - 1), ReadRun(env, bs, runs, fd, n - 1);
      QueuedOk(env, bs, runs, total, fd, n - 1);
      LastBelow(bs, runs, n - 1);
      ReadRunCovers(env, bs, runs, total, fd, n - 1);
      BehindAll(bs, q, Last(bs, runs, n - 1), x);
      QueueCovers(env', bs, q, x, b);
      assert Apart(bs, runs[i - 1], runs[n - 1]);
      assert !Has(bs, x, b);
      assert Queued(env, bs, runs, fd, n) == QueueRuns(bs, q, x);
    }
  }

  lemma {:induction false} FirstBad(bs: nat, runs: seq<Run>, n: nat) returns (i: nat)
    requires bs > 0 && n <= |runs| && !FillsFit(bs, runs, n)
    ensures i < n && FillsFit(bs, runs, i) && FillLength(bs, runs, i) >= TWO_32
    decreases n
  {
    if FillsFit(bs, runs, n - 1) {
      i := n - 1;
    } else {
      i := FirstBad(bs, runs, n - 1);
    }
  }

  /** Write, then read. The list read back means the image that was written, with partial data padded
      by zeros, if and only if no stretch of equal fills is 4 GB or longer. */
  lemma WriteThenRead(env: Env, bs: nat, runs: seq<Run>, total: nat, fd: int)
    requires Writable(bs, runs, total)
    ensures var stream := Stream(env, bs, runs, total);
            var back := Import(stream, fd);
            && back.Good?
            && ((forall b :: Image(After(env, fd, stream), bs, back.runs, b) == Image(env, bs, runs, b))
                <==> FillsFit(bs, runs, |runs|))
  {
    ReaderAccepts(env, bs, runs, total, fd);
    var n := |runs|;
    assert runs[..n] == runs;
    if FillsFit(bs, runs, n) {
      ReadAllSame(env, bs, runs, total, fd, n);
    } else {
      var i := FirstBad(bs, runs, n);
      var b := FirstOverflowLoses(env, bs, runs, total, fd, i);
      LostForGood(env, bs, runs, total, fd, b, i + 1, n);
      ImageOfRun(env, bs, runs, i, b);
    }
  }

  /** Two neighbouring fills of 2^31 bytes each: an image of 4 GB that is not read back. */
  lemma FourGigabyteExample(env: Env, fd: int, a: Run, b: Run)
    requires a == Run(0, TWO_31, Fill(0)) && b == Run(TWO_31 / 4096, TWO_31, Fill(0))
    ensures Writable(4096, [a, b], TWO_32 / 4096)
    ensures var stream := Stream(env, 4096, [a, b], TWO_32 / 4096);
            var back := Import(stream, fd);
            back.Good? &&
            exists blk :: Image(After(env, fd, stream), 4096, back.runs, blk) != Image(env, 4096, [a, b], blk)
  {
    var runs := [a, b];
    assert Last(4096, runs, 1) == TWO_31 / 4096 && Last(4096, runs, 2) == TWO_32 / 4096;
    assert Counted(4096, runs, 1) == 1 && Counted(4096, runs, 2) == 2;
    assert FillLength(4096, runs, 0) == TWO_31 && FillLength(4096, runs, 1) == TWO_32;
    assert !FillsFit(4096, runs, 2);
    WriteThenRead(env, 4096, runs, TWO_32 / 4096, fd);
  }
}
