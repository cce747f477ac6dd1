/** The writer and the reader of sparse files as they run, and the length of what is written. */
module SparseIo {
  import opened Common
  import opened Bytes
  import opened SparseList
  import opened SparseFormat
  import opened SparseRoundTrip
  import R = SparseResparse

  /** struct output_file for a sparse file without a CRC. */
  class OutputFile {
    const blockSize: nat
    var stream: seq<byte>
    var curOutPtr: int
    var chunkCnt: nat

    /** output_file_init: the header comes first. */
    constructor (bs: nat, total: nat, chunks: nat)
      requires bs > 0
      ensures blockSize == bs && stream == FileHeader(bs, total, chunks) && curOutPtr == 0 && chunkCnt == 0
    {
      blockSize := bs;
      stream := FileHeader(bs, total, chunks);
      curOutPtr, chunkCnt := 0, 0;
    }

    /** write_sparse_skip_chunk; a length that is not whole blocks is an error. */
    method WriteSkip(skipLen: nat) returns (ok: bool)
      requires blockSize > 0
      modifies this
      ensures ok == (skipLen % blockSize == 0)
      ensures !ok ==> stream == old(stream) && curOutPtr == old(curOutPtr) && chunkCnt == old(chunkCnt)
      ensures ok ==>
                && stream == old(stream) + SkipChunk(skipLen / blockSize)
                && curOutPtr == old(curOutPtr) + skipLen && chunkCnt == old(chunkCnt) + 1
    {
      if skipLen % blockSize != 0 {
        return false;
      }
      stream := stream + ChunkHeader(CHUNK_DONT_CARE, skipLen / blockSize, CHUNK_HDR);
      curOutPtr := curOutPtr + skipLen;
      chunkCnt := chunkCnt + 1;
      ok := true;
    }

    /** sparse_file_write_block: a fill chunk, or a raw chunk from memory, a file or a descriptor. The
        rounded length is an int; dividing it by the block size makes it unsigned again, adding it to
        the position does not. */
    method WriteBlock(env: Env, r: Run)
      requires blockSize > 0 && r.len + blockSize <= TWO_32
      modifies this
      ensures stream == old(stream) + Chunk(env, blockSize, r)
      ensures curOutPtr == old(curOutPtr) + Wrap32(AlignUp(r.len, blockSize)) && chunkCnt == old(chunkCnt) + 1
    {
      hide ChunkHeader, Le32, Payload, AlignUp, Wrap32;
      RoundedLength(r.len, blockSize);
      var rndUpLen := Wrap32(AlignUp(r.len, blockSize));
      var rounded := rndUpLen % TWO_32;
      assert rounded == AlignUp(r.len, blockSize);
      BlocksOfLength(blockSize, r);
      if r.src.Fill? {
        stream := stream + ChunkHeader(CHUNK_FILL, rounded / blockSize, CHUNK_HDR + 4);
        ConcatAssoc(old(stream), ChunkHeader(CHUNK_FILL, rounded / blockSize, CHUNK_HDR + 4), Le32(r.src.val));
        stream := stream + Le32(r.src.val);
      } else {
        stream := stream + ChunkHeader(CHUNK_RAW, rounded / blockSize, CHUNK_HDR + rounded);
        ConcatAssoc(old(stream), ChunkHeader(CHUNK_RAW, rounded / blockSize, CHUNK_HDR + rounded),
                    Payload(env, blockSize, r));
        stream := stream + Payload(env, blockSize, r);
      }
      curOutPtr := curOutPtr + rndUpLen;
      chunkCnt := chunkCnt + 1;
    }
  }

  /** The rounded length as an int, and as an unsigned number again. */
  lemma RoundedLength(len: nat, bs: nat)
    requires bs > 0 && len + bs <= TWO_32
    ensures var up := AlignUp(len, bs);
            && up < TWO_32 && Wrap32(up) % TWO_32 == up
            && Wrap32(up) == if up < TWO_31 then up else up - TWO_32
  {
    AlignUpBounds(len, bs);
    hide AlignUp;
  }

  /** sparse_count_chunks. */
  method CountTheChunks(bs: nat, runs: seq<Run>, total: nat) returns (chunks: nat)
    requires bs > 0
    ensures chunks == CountChunks(bs, runs, total)
  {
    chunks := 0;
    var last := 0;
    for i := 0 to |runs|
      invariant chunks == Counted(bs, runs, i) && last == Last(bs, runs, i)
    {
      if runs[i].block > last {
        chunks := chunks + 1;
      }
      chunks := chunks + 1;
      last := runs[i].block + DivRoundUp(runs[i].len, bs);
    }
    if last < total {
      chunks := chunks + 1;
    }
  }

  lemma WholeSkip(blocks: nat, bs: nat)
    requires bs > 0
    ensures (blocks * bs) % bs == 0 && (blocks * bs) / bs == blocks
  {
    DivModUnique(blocks, 0, bs);
  }

  /** The runs of 2^31 bytes or more among the first `i`. */
  function LongRuns(bs: nat, runs: seq<Run>, i: nat): nat
    requires bs > 0 && i <= |runs|
  {
    if i == 0 then 0
    else LongRuns(bs, runs, i - 1) + (if AlignUp(runs[i - 1].len, bs) >= TWO_31 then 1 else 0)
  }

  /** Where the position stands after `i` runs: behind the last one, but 2^32 bytes short for each
      long run. */
  function Reached(bs: nat, runs: seq<Run>, i: nat): int
    requires bs > 0 && i <= |runs|
  {
    Last(bs, runs, i) * bs - TWO_32 * LongRuns(bs, runs, i)
  }

  ghost predicate RunsRound(bs: nat, runs: seq<Run>)
    requires bs > 0
  {
    forall i | 0 <= i < |runs| :: runs[i].len + bs <= TWO_32
  }

  lemma ReachedStep(bs: nat, runs: seq<Run>, i: nat)
    requires bs > 0 && i < |runs| && runs[i].len + bs <= TWO_32
    ensures Reached(bs, runs, i + 1) ==
            Reached(bs, runs, i) + (runs[i].block - Last(bs, runs, i)) * bs + Wrap32(AlignUp(runs[i].len, bs))
  {
    hide Wrap32, AlignUp;
    RoundedLength(runs[i].len, bs);
    BlocksOfLength(bs, runs[i]);
    assert Last(bs, runs, i + 1) == runs[i].block + Blocks(bs, runs[i]);
    assert Last(bs, runs, i + 1) * bs == runs[i].block * bs + Blocks(bs, runs[i]) * bs;
    assert (runs[i].block - Last(bs, runs, i)) * bs == runs[i].block * bs - Last(bs, runs, i) * bs;
  }

  /** One turn of write_all_blocks: the gap before a run, and the run. */
  method WriteRun(out: OutputFile, env: Env, bs: nat, runs: seq<Run>, i: nat)
    requires bs > 0 && Sorted(bs, runs) && i < |runs| && out.blockSize == bs
    requires runs[i].len + bs <= TWO_32
    modifies out
    ensures out.stream == old(out.stream) + (Gap(bs, runs, i) + Chunk(env, bs, runs[i]))
    ensures out.chunkCnt == old(out.chunkCnt) + (if runs[i].block > Last(bs, runs, i) then 2 else 1)
    ensures out.curOutPtr == old(out.curOutPtr) + Reached(bs, runs, i + 1) - Reached(bs, runs, i)
  {
    hide Sorted, ChunkHeader, Chunk, AlignUp, Wrap32, Reached;
    LastBelow(bs, runs, i);
    ReachedStep(bs, runs, i);
    ghost var start, gap := out.stream, Gap(bs, runs, i);
    var last := Last(bs, runs, i);
    if runs[i].block > last {
      WholeSkip(runs[i].block - last, bs);
      var ok := out.WriteSkip((runs[i].block - last) * bs);
    }
    assert out.stream == start + gap;
    out.WriteBlock(env, runs[i]);
    ConcatAssoc(start, gap, Chunk(env, bs, runs[i]));
  }

  /** The loop of write_all_blocks. */
  method WriteRuns(out: OutputFile, env: Env, bs: nat, runs: seq<Run>)
    requires bs > 0 && Sorted(bs, runs) && RunsRound(bs, runs)
    requires out.blockSize == bs && out.curOutPtr == 0 && out.chunkCnt == 0
    modifies out
    ensures out.stream == old(out.stream) + Written(env, bs, runs, |runs|)
    ensures out.chunkCnt == Counted(bs, runs, |runs|) && out.curOutPtr == Reached(bs, runs, |runs|)
  {
    hide Sorted, AlignUp, Chunk, Gap, Reached;
    ghost var start := out.stream;
    assert Reached(bs, runs, 0) == 0 by { NothingReached(bs, runs); }
    for i := 0 to |runs|
      invariant out.stream == start + Written(env, bs, runs, i)
      invariant out.chunkCnt == Counted(bs, runs, i) && out.curOutPtr == Reached(bs, runs, i)
    {
      WriteRun(out, env, bs, runs, i);
      ConcatAssoc(start, Written(env, bs, runs, i), Gap(bs, runs, i) + Chunk(env, bs, runs[i]));
    }
  }

  lemma NothingReached(bs: nat, runs: seq<Run>)
    requires bs > 0
    ensures Reached(bs, runs, 0) == 0
  {
  }

  /** The end of write_all_blocks: the rest of the image is one gap. */
  method WriteTail(out: OutputFile, bs: nat, runs: seq<Run>, total: nat)
    requires bs > 0 && out.blockSize == bs && Last(bs, runs, |runs|) <= total
    modifies out
    ensures out.stream == old(out.stream) + Tail(bs, runs, total)
    ensures out.chunkCnt == old(out.chunkCnt) + (if Last(bs, runs, |runs|) < total then 1 else 0)
    ensures out.curOutPtr == old(out.curOutPtr) + (total - Last(bs, runs, |runs|)) * bs
  {
    hide ChunkHeader, Last;
    var rest := total - Last(bs, runs, |runs|);
    var pad := rest * bs;
    WholeSkip(rest, bs);
    if pad > 0 {
      var ok := out.WriteSkip(pad);
    } else {
      SmallMultiple(rest, bs, 0);
    }
  }

  /** sparse_file_write: the header promises as many chunks as are written. The position, which the
      code keeps but never reads, stands at the end of the image if and only if no run has 2^31 bytes
      or more. */
  method WriteSparse(env: Env, bs: nat, runs: seq<Run>, total: nat) returns (out: OutputFile)
    requires bs > 0 && Sorted(bs, runs) && RunsRound(bs, runs) && Last(bs, runs, |runs|) <= total
    ensures out.stream == Stream(env, bs, runs, total)
    ensures out.chunkCnt == CountChunks(bs, runs, total)
    ensures out.curOutPtr == total * bs - TWO_32 * LongRuns(bs, runs, |runs|)
  {
    hide Sorted, FileHeader, ChunkHeader, Chunk, Gap, Written, Tail, AlignUp, Last;
    var chunks := CountTheChunks(bs, runs, total);
    out := new OutputFile(bs, total, chunks);
    ghost var header := out.stream;
    WriteRuns(out, env, bs, runs);
    WriteTail(out, bs, runs, total);
    ConcatAssoc(header, Written(env, bs, runs, |runs|), Tail(bs, runs, total));
    Distributes(total, Last(bs, runs, |runs|), bs);
  }

  lemma Distributes(a: int, b: int, k: int)
    ensures (a - b) * k == a * k - b * k
  {
  }

  /** sparse_file_import. */
  method ImportSparse(s: seq<byte>, fd: int) returns (r: ReadResult)
    ensures r == Import(s, fd)
  {
    if |s| < FILE_HDR {
      return EndOfFile;
    }
    var hdrSz, chunkHdrSz, bs := Get16(s, 8), Get16(s, 10), Get32(s, 12);
    if Get32(s, 0) != MAGIC || Get16(s, 4) != 1 || hdrSz < FILE_HDR || chunkHdrSz < CHUNK_HDR {
      return Invalid;
    }
    if bs == 0 {
      return Crash;
    }
    var total, n := Get32(s, 16), Get32(s, 20);
    var pos: nat, cur: nat, runs := hdrSz, 0, [];
    var i := 0;
    while i < n
      invariant i <= n
      invariant Import(s, fd) == ReadChunks(s, fd, bs, chunkHdrSz, total, n - i, pos, cur, runs)
    {
      var step := ReadOne(s, fd, bs, chunkHdrSz, pos, cur, runs);
      if step.Stop? {
        return step.result;
      }
      pos, cur, runs := step.pos, step.cur, step.runs;
      i := i + 1;
    }
    r := if total == cur then Good(runs) else Invalid;
  }

  // ----- The length of a sparse file

  /** What the counter behind resparse adds up for a raw chunk from memory: its callback takes every length
      as an int. */
  function RawCount(bs: nat, len: nat): int
    requires bs > 0
  {
    CHUNK_HDR + Wrap32(len) + Wrap32(AlignUp(len, bs) - len)
  }

  /** It counts what is written if and only if the run is shorter than 2^31 bytes. */
  lemma RawCountIff(bs: nat, len: nat)
    requires 0 < bs <= TWO_31 && len + bs <= TWO_32
    ensures RawCount(bs, len) == CHUNK_HDR + AlignUp(len, bs) <==> len < TWO_31
  {
    AlignUpBounds(len, bs);
    hide AlignUp;
  }

  /** A run of 2^31 bytes counts as less than nothing, and is never divided. */
  lemma RawCountExample()
    ensures RawCount(4096, TWO_31) == CHUNK_HDR - TWO_31
  {
  }

  lemma ChunkLength(env: Env, bs: nat, r: Run)
    requires bs > 0
    ensures |Chunk(env, bs, r)| == R.ChunkSize(bs, r)
  {
    hide ChunkHeader, Le32, Payload, AlignUp;
  }

  /** The skip chunks among the first `i` runs. */
  function SkipsUpTo(bs: nat, runs: seq<Run>, i: nat): nat
    requires bs > 0 && i <= |runs|
  {
    if i == 0 then 0
    else SkipsUpTo(bs, runs, i - 1) + (if runs[i - 1].block > Last(bs, runs, i - 1) then 1 else 0)
  }

  lemma {:induction false} WrittenLength(env: Env, bs: nat, runs: seq<Run>, i: nat)
    requires bs > 0 && i <= |runs|
    ensures |Written(env, bs, runs, i)| == R.Size(bs, runs[..i]) + CHUNK_HDR * SkipsUpTo(bs, runs, i)
    decreases i
  {
    if i > 0 {
      hide Chunk, ChunkHeader, R.ChunkSize;
      WrittenLength(env, bs, runs, i - 1);
      R.SizeStep(bs, runs, i - 1);
      ChunkLength(env, bs, runs[i - 1]);
    }
  }

  lemma {:induction false} SkipsAreGaps(bs: nat, runs: seq<Run>, i: nat)
    requires bs > 0 && 0 < i <= |runs|
    ensures SkipsUpTo(bs, runs, i) == (if runs[0].block > 0 then 1 else 0) + R.Gaps(bs, runs[..i])
    decreases i
  {
    if i > 1 {
      SkipsAreGaps(bs, runs, i - 1);
      assert runs[..i][..i - 1] == runs[..i - 1];
    }
  }

  /** The size that resparse reckons with is the length of the file that is written. */
  lemma StreamLength(env: Env, bs: nat, runs: seq<Run>, total: nat)
    requires bs > 0
    ensures |Stream(env, bs, runs, total)| == R.FileSize(bs, runs, total, false)
  {
    hide FileHeader, ChunkHeader, Written;
    var n := |runs|;
    assert runs[..n] == runs;
    WrittenLength(env, bs, runs, n);
    if n > 0 {
      SkipsAreGaps(bs, runs, n);
    }
  }
}
