/** A small sparse file, byte for byte: four-byte blocks, one of data, one of a fill, and one that is left
    out. */
module SparseExample {
  import opened Common
  import opened Bytes
  import opened SparseList
  import opened SparseQueue
  import opened SparseFormat
  import opened SparseRoundTrip

  /** A file starts with the magic number, version 1.0, and the lengths of its headers, whatever it holds. */
  lemma FileBegins(env: Env, bs: nat, runs: seq<Run>, total: nat)
    requires bs > 0
    ensures |Stream(env, bs, runs, total)| >= 28
    ensures Stream(env, bs, runs, total)[..12] == [0x3a, 0xff, 0x26, 0xed, 1, 0, 0, 0, 28, 0, 12, 0]
  {
    hide Written, Tail, CountChunks;
    LeLiterals();
    var h := FileHeader(bs, total, CountChunks(bs, runs, total));
    assert Stream(env, bs, runs, total)[..12] == h[..12];
  }

  lemma LeLiterals()
    ensures Le32(MAGIC) == [0x3a, 0xff, 0x26, 0xed] && Le16(1) == [1, 0] && Le16(0) == [0, 0]
    ensures Le16(FILE_HDR) == [28, 0] && Le16(CHUNK_HDR) == [12, 0]
    ensures Le16(CHUNK_RAW) == [0xc1, 0xca] && Le16(CHUNK_FILL) == [0xc2, 0xca]
    ensures Le16(CHUNK_DONT_CARE) == [0xc3, 0xca]
  {
  }

  /** Every chunk starts with its kind. */
  lemma ChunkBegins(env: Env, bs: nat, r: Run, blocks: nat)
    requires bs > 0
    ensures |Chunk(env, bs, r)| >= 12
    ensures Chunk(env, bs, r)[..4] == [if r.src.Fill? then 0xc2 else 0xc1, 0xca, 0, 0]
    ensures SkipChunk(blocks)[..4] == [0xc3, 0xca, 0, 0]
  {
    hide Payload, Le32;
    LeLiterals();
  }

  const IMAGE: seq<Run> := [Run(0, 4, Data([0xde, 0xad, 0xbe, 0xef])), Run(1, 4, Fill(0x44332211))]

  const HEADER: seq<byte> :=
    [0x3a, 0xff, 0x26, 0xed, 1, 0, 0, 0, 28, 0, 12, 0, 4, 0, 0, 0, 3, 0, 0, 0, 3, 0, 0, 0, 0, 0, 0, 0]

  const RAW_CHUNK: seq<byte> := [0xc1, 0xca, 0, 0, 1, 0, 0, 0, 16, 0, 0, 0, 0xde, 0xad, 0xbe, 0xef]

  const FILL_CHUNK: seq<byte> := [0xc2, 0xca, 0, 0, 1, 0, 0, 0, 16, 0, 0, 0, 0x11, 0x22, 0x33, 0x44]

  const SKIP_CHUNK: seq<byte> := [0xc3, 0xca, 0, 0, 1, 0, 0, 0, 12, 0, 0, 0]

  const FILE: seq<byte> := HEADER + (RAW_CHUNK + FILL_CHUNK + SKIP_CHUNK)

  lemma SmallWords()
    ensures Le32(0) == [0, 0, 0, 0] && Le32(1) == [1, 0, 0, 0] && Le32(3) == [3, 0, 0, 0] && Le32(4) == [4, 0, 0, 0]
    ensures Le32(12) == [12, 0, 0, 0] && Le32(16) == [16, 0, 0, 0] && Le32(0x44332211) == [0x11, 0x22, 0x33, 0x44]
  {
  }

  lemma Chunks(env: Env)
    ensures Chunk(env, 4, IMAGE[0]) == RAW_CHUNK && Chunk(env, 4, IMAGE[1]) == FILL_CHUNK && SkipChunk(1) == SKIP_CHUNK
  {
    hide Le32, Le16;
    LeLiterals();
    SmallWords();
    assert AlignUp(4, 4) == 4 && Blocks(4, IMAGE[0]) == 1 && Blocks(4, IMAGE[1]) == 1;
    assert Payload(env, 4, IMAGE[0]) == [0xde, 0xad, 0xbe, 0xef];
  }

  lemma Header()
    ensures FileHeader(4, 3, 3) == HEADER
  {
    hide Le32, Le16;
    LeLiterals();
    SmallWords();
  }

  /** What is written for the image. */
  lemma StreamExample(env: Env)
    ensures Stream(env, 4, IMAGE, 3) == FILE
  {
    hide Chunk, FileHeader, SkipChunk;
    Chunks(env);
    Header();
    assert End(4, IMAGE[0]) == 1 && End(4, IMAGE[1]) == 2;
    assert Last(4, IMAGE, 1) == 1 && Last(4, IMAGE, 2) == 2;
    assert Counted(4, IMAGE, 1) == 1 && Counted(4, IMAGE, 2) == 2;
    assert Gap(4, IMAGE, 0) == [] && Gap(4, IMAGE, 1) == [];
    assert Written(env, 4, IMAGE, 0) == [];
    assert Written(env, 4, IMAGE, 1) == RAW_CHUNK;
    assert Written(env, 4, IMAGE, 2) == RAW_CHUNK + FILL_CHUNK;
  }

  lemma FileFields()
    ensures |FILE| == 72 && Get32(FILE, 0) == MAGIC && Get16(FILE, 4) == 1 && Get16(FILE, 8) == 28
    ensures Get16(FILE, 10) == 12 && Get32(FILE, 12) == 4 && Get32(FILE, 16) == 3 && Get32(FILE, 20) == 3
    ensures Get16(FILE, 28) == 0xcac1 && Get32(FILE, 32) == 1 && Get32(FILE, 36) == 16
    ensures Get16(FILE, 44) == 0xcac2 && Get32(FILE, 48) == 1 && Get32(FILE, 52) == 16 && Get32(FILE, 56) == 0x44332211
    ensures Get16(FILE, 60) == 0xcac3 && Get32(FILE, 64) == 1 && Get32(FILE, 68) == 12
  {
  }

  /** What is read from those bytes. */
  lemma ImportExample(fd: int)
    ensures Import(FILE, fd) == Good([Run(0, 4, FdAt(fd, 40)), Run(1, 4, Fill(0x44332211))])
  {
    var s := FILE;
    FileFields();
    hide Get16, Get32;
    var a, b := Run(0, 4, FdAt(fd, 40)), Run(1, 4, Fill(0x44332211));
    assert ReadOne(s, fd, 4, 12, 28, 0, []) == Next(44, 1, [a]);
    QueuesApart(a, b);
    assert ReadOne(s, fd, 4, 12, 44, 1, [a]) == Next(60, 2, [a, b]);
    assert ReadOne(s, fd, 4, 12, 60, 2, [a, b]) == Next(72, 3, [a, b]);
    hide ReadOne;
    OneChunk(s, fd, 4, 3, 3, 28, 0, [], Next(44, 1, [a]));
    OneChunk(s, fd, 4, 3, 2, 44, 1, [a], Next(60, 2, [a, b]));
    OneChunk(s, fd, 4, 3, 1, 60, 2, [a, b], Next(72, 3, [a, b]));
  }

  lemma QueuesApart(a: Run, b: Run)
    requires a.block == 0 && b.block == 1 && a.src.FdAt? && b.src.Fill?
    ensures QueueRuns(4, [a], b) == [a, b]
  {
    assert Position([a], 1, 1) == 1;
    assert Inserted([a], 1, b) == [a, b];
  }

  /** A file with a CRC chunk: the reader follows a null pointer. */
  lemma CrcExample(s: seq<byte>, fd: int)
    requires s == [0x3a, 0xff, 0x26, 0xed, 1, 0, 0, 0, 28, 0, 12, 0, 4, 0, 0, 0, 0, 0, 0, 0, 1, 0, 0, 0, 0, 0, 0, 0]
                  + [0xc4, 0xca, 0, 0, 0, 0, 0, 0, 16, 0, 0, 0, 0, 0, 0, 0]
    ensures Import(s, fd) == Crash
  {
    assert Get32(s, 0) == MAGIC && Get16(s, 4) == 1 && Get16(s, 8) == 28 && Get16(s, 10) == 12;
    assert Get32(s, 12) == 4 && Get32(s, 16) == 0 && Get32(s, 20) == 1 && Get16(s, 28) == 0xcac4;
  }

  /** What the image means: the bytes of the data, the four bytes of the fill from the low one up, and
      nothing for the block that is left out. */
  lemma ImageExample(env: Env)
    ensures Image(env, 4, IMAGE, 0) == Some([0xde, 0xad, 0xbe, 0xef])
    ensures Image(env, 4, IMAGE, 1) == Some([0x11, 0x22, 0x33, 0x44]) && Image(env, 4, IMAGE, 2) == None
  {
    assert End(4, IMAGE[0]) == 1 && End(4, IMAGE[1]) == 2;
    assert IMAGE[1..] == [IMAGE[1]] && [IMAGE[1]][1..] == [];
    FirstBlock(env, IMAGE[0]);
    FirstBlock(env, IMAGE[1]);
    assert Image(env, 4, [], 2) == None && !Has(4, IMAGE[0], 2) && !Has(4, IMAGE[1], 2);
    assert Image(env, 4, [IMAGE[1]], 2) == None;
  }

  lemma FirstBlock(env: Env, r: Run)
    ensures BlockOf(env, 4, r, r.block) == [Byte(env, r, 0, 0), Byte(env, r, 1, 1), Byte(env, r, 2, 2), Byte(env, r, 3, 3)]
  {
    hide Byte;
    var s := BlockOf(env, 4, r, r.block);
    assert s[0] == Byte(env, r, 0, 0) && s[1] == Byte(env, r, 1, 1);
    assert s[2] == Byte(env, r, 2, 2) && s[3] == Byte(env, r, 3, 3);
  }

  /** Three bytes from offset 1 of a file, and the zero that fills the block. */
  lemma PaddedExample(env: Env, r: Run)
    requires 7 in env.fds && env.fds[7] == [9, 1, 2, 3, 9] && r == Run(0, 3, FdAt(7, 1))
    ensures BlockOf(env, 4, r, 0) == [1, 2, 3, 0] && Payload(env, 4, r) == [1, 2, 3, 0]
  {
    assert AlignUp(3, 4) == 4;
    FirstBlock(env, r);
    assert Payload(env, 4, r) == [1, 2, 3, 0];
  }

  /** Which neighbours are merged: equal fills and successive parts of one descriptor, but not data, files,
      unequal fills, or runs that leave something out. */
  lemma MergeExample(s: seq<byte>, name: string)
    ensures Mergeable(4, Run(0, 8, Fill(1)), Run(2, 4, Fill(1))) && !Mergeable(4, Run(0, 8, Fill(1)), Run(2, 4, Fill(2)))
    ensures Mergeable(4, Run(0, 8, FdAt(7, 100)), Run(2, 4, FdAt(7, 108)))
    ensures !Mergeable(4, Run(0, 8, FdAt(7, 100)), Run(2, 4, FdAt(7, 112)))
    ensures !Mergeable(4, Run(0, 8, FdAt(7, 100)), Run(2, 4, FdAt(8, 108)))
    ensures !Mergeable(4, Run(0, 8, Fill(1)), Run(3, 4, Fill(1)))
    ensures !Mergeable(4, Run(0, 8, Data(s)), Run(2, 4, Data(s)))
    ensures !Mergeable(4, Run(0, 8, FileAt(name, 0)), Run(2, 4, FileAt(name, 8)))
  {
  }

  /** A run behind its neighbour is merged with it, one in front of the head is not. */
  lemma QueueExample(a: Run, b: Run)
    requires a == Run(0, 8, Fill(1)) && b == Run(2, 4, Fill(1))
    ensures QueueRuns(4, [a], b) == [Run(0, 12, Fill(1))] && QueueRuns(4, [b], a) == [a, b]
  {
    assert Position([a], 2, 1) == 1;
    assert Inserted([a], 1, b) == [a, b];
    assert MergeAt(4, [a, b], 1) == [a, b] && MergeAt(4, [a, b], 0) == [Merged(a, b)];
  }
}
