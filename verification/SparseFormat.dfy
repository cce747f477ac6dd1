/** The sparse file format: the chunk writers of libsparse/output_file.c and the reader of
    libsparse/sparse_read.c, byte for byte, without the CRC. */
module SparseFormat {
  import opened Common
  import opened Bytes
  import opened SparseList
  import opened SparseQueue

  const MAGIC: nat := 0xed26ff3a
  const CHUNK_RAW: nat := 0xCAC1
  const CHUNK_FILL: nat := 0xCAC2
  const CHUNK_DONT_CARE: nat := 0xCAC3
  const CHUNK_CRC32: nat := 0xCAC4

  // ----- Writing

  function ChunkHeader(kind: nat, chunkSz: nat, totalSz: nat): (s: seq<byte>)
    ensures |s| == CHUNK_HDR
  {
    Le16(kind) + Le16(0) + Le32(chunkSz) + Le32(totalSz)
  }

  function FileHeader(bs: nat, total: nat, chunks: nat): (s: seq<byte>)
    ensures |s| == FILE_HDR
  {
    Le32(MAGIC) + Le16(1) + Le16(0) + Le16(FILE_HDR) + Le16(CHUNK_HDR) + Le32(bs) + Le32(total)
    + Le32(chunks) + Le32(0)
  }

  /** The data of a raw chunk: the bytes of the run, padded with zeros to a whole block. */
  function Payload(env: Env, bs: nat, r: Run): (s: seq<byte>)
    requires bs > 0
    ensures |s| == AlignUp(r.len, bs)
  {
    seq<byte>(AlignUp(r.len, bs), q requires 0 <= q < AlignUp(r.len, bs) => Byte(env, r, q, 0))
  }

  /** write_sparse_fill_chunk and write_sparse_data_chunk. */
  function Chunk(env: Env, bs: nat, r: Run): seq<byte>
    requires bs > 0
  {
    match r.src
    case Fill(val) => ChunkHeader(CHUNK_FILL, Blocks(bs, r), CHUNK_HDR + 4) + Le32(val)
    case _ =>
      ChunkHeader(CHUNK_RAW, Blocks(bs, r), CHUNK_HDR + AlignUp(r.len, bs)) + Payload(env, bs, r)
  }

  function SkipChunk(blocks: nat): seq<byte> { ChunkHeader(CHUNK_DONT_CARE, blocks, CHUNK_HDR) }

  /** The block after the first `i` runs. */
  function Last(bs: nat, runs: seq<Run>, i: nat): nat
    requires bs > 0 && i <= |runs|
  {
    if i == 0 then 0 else End(bs, runs[i - 1])
  }

  /** What stands before the chunk of run `i`. */
  function Gap(bs: nat, runs: seq<Run>, i: nat): seq<byte>
    requires bs > 0 && i < |runs|
  {
    if runs[i].block > Last(bs, runs, i) then SkipChunk(runs[i].block - Last(bs, runs, i)) else []
  }

  /** The chunks of the first `i` runs. */
  function Written(env: Env, bs: nat, runs: seq<Run>, i: nat): seq<byte>
    requires bs > 0 && i <= |runs|
  {
    if i == 0 then []
    else Written(env, bs, runs, i - 1) + (Gap(bs, runs, i - 1) + Chunk(env, bs, runs[i - 1]))
  }

  /** The number of those chunks. */
  function Counted(bs: nat, runs: seq<Run>, i: nat): nat
    requires bs > 0 && i <= |runs|
  {
    if i == 0 then 0
    else Counted(bs, runs, i - 1) + (if runs[i - 1].block > Last(bs, runs, i - 1) then 2 else 1)
  }

  function Tail(bs: nat, runs: seq<Run>, total: nat): seq<byte>
    requires bs > 0
  {
    var last := Last(bs, runs, |runs|);
    if last < total then SkipChunk(total - last) else []
  }

  /** sparse_count_chunks. */
  function CountChunks(bs: nat, runs: seq<Run>, total: nat): nat
    requires bs > 0
  {
    Counted(bs, runs, |runs|) + (if Last(bs, runs, |runs|) < total then 1 else 0)
  }

  /** The sparse file of an image of `total` blocks. */
  function Stream(env: Env, bs: nat, runs: seq<Run>, total: nat): seq<byte>
    requires bs > 0
  {
    FileHeader(bs, total, CountChunks(bs, runs, total))
    + (Written(env, bs, runs, |runs|) + Tail(bs, runs, total))
  }

  // ----- Reading

  datatype ReadResult = Good(runs: seq<Run>) | Invalid | EndOfFile | Crash

  /** What one chunk does to the reader: the new file position, current block and list, or the end. */
  datatype Step = Next(pos: nat, cur: nat, runs: seq<Run>) | Stop(result: ReadResult)

  /** process_chunk. A CRC chunk is a crash: the reader follows a null pointer when it has not been
      asked for the CRC. A chunk of unknown kind is passed over without its data. A chunk of 2^31
      blocks or more returns a negative number, which counts as an error. */
  function ReadOne(s: seq<byte>, fd: int, bs: nat, hdrSz: nat, pos: nat, cur: nat, runs: seq<Run>): Step
    requires bs > 0 && hdrSz >= CHUNK_HDR
  {
    if pos + CHUNK_HDR > |s| then Stop(EndOfFile)
    else
      var kind, blocks := Get16(s, pos), Get32(s, pos + 4);
      var size := (Get32(s, pos + 8) + TWO_32 - hdrSz) % TWO_32;
      var data := pos + hdrSz;
      var len := blocks * bs % TWO_32;
      var next := (cur + blocks) % TWO_32;
      if kind == CHUNK_RAW then
        if size % bs != 0 || size / bs != blocks || blocks >= TWO_31 then Stop(Invalid)
        else Next(data + len, next, QueueRuns(bs, runs, Run(cur, len, FdAt(fd, data))))
      else if kind == CHUNK_FILL then
        if size != 4 || blocks >= TWO_31 then Stop(Invalid)
        else if data + 4 > |s| then Stop(EndOfFile)
        else Next(data + 4, next, QueueRuns(bs, runs, Run(cur, len, Fill(Get32(s, data)))))
      else if kind == CHUNK_DONT_CARE then
        if size != 0 || blocks >= TWO_31 then Stop(Invalid) else Next(data, next, runs)
      else if kind == CHUNK_CRC32 then Stop(Crash)
      else Next(data, cur, runs)
  }

  /** The chunk loop of sparse_file_read_sparse: `n` chunks are left, the file stands at `pos`. */
  function ReadChunks(s: seq<byte>, fd: int, bs: nat, hdrSz: nat, total: nat, n: nat, pos: nat, cur: nat,
                      runs: seq<Run>): ReadResult
    requires bs > 0 && hdrSz >= CHUNK_HDR
    decreases n
  {
    if n == 0 then (if total == cur then Good(runs) else Invalid)
    else
      var step := ReadOne(s, fd, bs, hdrSz, pos, cur, runs);
      if step.Stop? then step.result
      else ReadChunks(s, fd, bs, hdrSz, total, n - 1, step.pos, step.cur, step.runs)
  }

  /** sparse_file_import: the header, then the chunks. */
  function Import(s: seq<byte>, fd: int): ReadResult {
    if |s| < FILE_HDR then EndOfFile
    else
      var hdrSz, chunkHdrSz, bs := Get16(s, 8), Get16(s, 10), Get32(s, 12);
      if Get32(s, 0) != MAGIC || Get16(s, 4) != 1 || hdrSz < FILE_HDR || chunkHdrSz < CHUNK_HDR then Invalid
      else if bs == 0 then Crash
      else ReadChunks(s, fd, bs, chunkHdrSz, Get32(s, 16), Get32(s, 20), hdrSz, 0, [])
  }

  // ----- What a stream holds where

  /** An image the format can hold: whole blocks, 32-bit fields, lengths that fit a C int. */
  ghost predicate Writable(bs: nat, runs: seq<Run>, total: nat) {
    && 0 < bs < TWO_32 && total < TWO_31 && Sorted(bs, runs) && Sized(runs)
    && Last(bs, runs, |runs|) <= total && CountChunks(bs, runs, total) < TWO_32
    && forall i | 0 <= i < |runs| :: RunFits(bs, runs[i])
  }

  predicate RunFits(bs: nat, r: Run)
    requires bs > 0
  {
    match r.src
    case Fill(val) => val < TWO_32 && r.len + bs <= TWO_32
    case _ => CHUNK_HDR + AlignUp(r.len, bs) < TWO_31
  }

  function Pos(env: Env, bs: nat, runs: seq<Run>, i: nat): nat
    requires bs > 0 && i <= |runs|
  {
    FILE_HDR + |Written(env, bs, runs, i)|
  }

  lemma ConcatAssoc(a: seq<byte>, b: seq<byte>, c: seq<byte>)
    ensures (a + b) + c == a + (b + c)
  {
  }

  lemma {:induction false} WrittenExtends(env: Env, bs: nat, runs: seq<Run>, i: nat, n: nat) returns (rest: seq<byte>)
    requires bs > 0 && i <= n <= |runs|
    ensures Written(env, bs, runs, n) == Written(env, bs, runs, i) + rest
    decreases n - i
  {
    hide Gap, Chunk;
    if i == n {
      rest := [];
    } else {
      var more := WrittenExtends(env, bs, runs, i + 1, n);
      var part := Gap(bs, runs, i) + Chunk(env, bs, runs[i]);
      ConcatAssoc(Written(env, bs, runs, i), part, more);
      rest := part + more;
    }
  }

  /** A part of the body stands in the file behind the header. */
  lemma StandsInside(h: seq<byte>, w: seq<byte>, c: seq<byte>, rest: seq<byte>, t: seq<byte>)
    ensures StandsAt(h + ((w + c) + rest + t), |h| + |w|, c)
  {
    var s := h + ((w + c) + rest + t);
    assert s == (h + w) + c + (rest + t);
  }

  /** The gap and the chunk of run `i` stand where the first `i` runs end. */
  lemma ChunkStands(env: Env, bs: nat, runs: seq<Run>, total: nat, i: nat)
    requires bs > 0 && i < |runs|
    ensures StandsAt(Stream(env, bs, runs, total), Pos(env, bs, runs, i), Gap(bs, runs, i) + Chunk(env, bs, runs[i]))
    ensures Pos(env, bs, runs, i + 1) == Pos(env, bs, runs, i) + |Gap(bs, runs, i)| + |Chunk(env, bs, runs[i])|
  {
    var rest := WrittenExtends(env, bs, runs, i + 1, |runs|);
    StandsInside(FileHeader(bs, total, CountChunks(bs, runs, total)), Written(env, bs, runs, i),
                 Gap(bs, runs, i) + Chunk(env, bs, runs[i]), rest, Tail(bs, runs, total));
  }

  lemma TailStands(env: Env, bs: nat, runs: seq<Run>, total: nat)
    requires bs > 0
    ensures StandsAt(Stream(env, bs, runs, total), Pos(env, bs, runs, |runs|), Tail(bs, runs, total))
  {
    var w, t := Written(env, bs, runs, |runs|), Tail(bs, runs, total);
    var head := FileHeader(bs, total, CountChunks(bs, runs, total));
    assert Stream(env, bs, runs, total) == head + w + t;
  }

  lemma HeaderFields(s: seq<byte>, p: nat, kind: nat, chunkSz: nat, totalSz: nat)
    requires StandsAt(s, p, ChunkHeader(kind, chunkSz, totalSz))
    requires kind < TWO_16 && chunkSz < TWO_32 && totalSz < TWO_32
    ensures p + CHUNK_HDR <= |s| && Get16(s, p) == kind
    ensures Get32(s, p + 4) == chunkSz && Get32(s, p + 8) == totalSz
  {
    StandsParts(s, p, Le16(kind) + Le16(0) + Le32(chunkSz), Le32(totalSz));
    StandsParts(s, p, Le16(kind) + Le16(0), Le32(chunkSz));
    StandsParts(s, p, Le16(kind), Le16(0));
    Field16(s, p, kind);
    Field32(s, p + 4, chunkSz);
    Field32(s, p + 8, totalSz);
  }

  lemma FileHeaderFields(s: seq<byte>, bs: nat, total: nat, chunks: nat)
    requires FileHeader(bs, total, chunks) <= s && bs < TWO_32 && total < TWO_32 && chunks < TWO_32
    ensures |s| >= FILE_HDR && Get32(s, 0) == MAGIC && Get16(s, 4) == 1 && Get16(s, 8) == FILE_HDR
    ensures Get16(s, 10) == CHUNK_HDR && Get32(s, 12) == bs && Get32(s, 16) == total && Get32(s, 20) == chunks
  {
    var h := FileHeader(bs, total, chunks);
    HeaderBytes(bs, total, chunks);
    SamePlace(h, s, 0);
    SamePlace(h, s, 4);
    SamePlace(h, s, 8);
    SamePlace(h, s, 10);
    SamePlace(h, s, 12);
    SamePlace(h, s, 16);
    SamePlace(h, s, 20);
  }

  lemma SamePlace(h: seq<byte>, s: seq<byte>, p: nat)
    requires h <= s && p + 4 <= |h|
    ensures Get16(s, p) == Get16(h, p) && Get32(s, p) == Get32(h, p)
  {
  }

  lemma HeaderBytes(bs: nat, total: nat, chunks: nat)
    requires bs < TWO_32 && total < TWO_32 && chunks < TWO_32
    ensures var h := FileHeader(bs, total, chunks);
            && Get32(h, 0) == MAGIC && Get16(h, 4) == 1 && Get16(h, 8) == FILE_HDR && Get16(h, 10) == CHUNK_HDR
            && Get32(h, 12) == bs && Get32(h, 16) == total && Get32(h, 20) == chunks
  {
    hide Get16, Get32, StandsAt, LeByte;
    var a := Le32(MAGIC);
    var b := a + Le16(1);
    var c := b + Le16(0);
    var d := c + Le16(FILE_HDR);
    var e := d + Le16(CHUNK_HDR);
    var f := e + Le32(bs);
    var g := f + Le32(total);
    var k := g + Le32(chunks);
    var h := k + Le32(0);
    assert h == FileHeader(bs, total, chunks);
    StandsWhole(h);
    StandsParts(h, 0, k, Le32(0));
    StandsParts(h, 0, g, Le32(chunks));
    StandsParts(h, 0, f, Le32(total));
    StandsParts(h, 0, e, Le32(bs));
    StandsParts(h, 0, d, Le16(CHUNK_HDR));
    StandsParts(h, 0, c, Le16(FILE_HDR));
    StandsParts(h, 0, b, Le16(0));
    StandsParts(h, 0, a, Le16(1));
    Field32(h, 0, MAGIC);
    Field16(h, 4, 1);
    Field16(h, 8, FILE_HDR);
    Field16(h, 10, CHUNK_HDR);
    Field32(h, 12, bs);
    Field32(h, 16, total);
    Field32(h, 20, chunks);
  }

  lemma StandsWhole(s: seq<byte>)
    ensures StandsAt(s, 0, s)
  {
    assert s[0..|s|] == s;
  }
}
