/** sparse_file_resparse as it runs: list objects, a loop that moves runs between them, and the
    counting call that leaves everything in the input. */
module SparseDriver {
  import opened Common
  import opened SparseList
  import opened SparseQueue
  import opened SparseResparse

  /** The loop of move_chunks_up_to_len: the runs that fit, and their size. */
  method CountFitting(bs: nat, runs: seq<Run>, len: nat) returns (i: nat, fileLen: nat)
    requires bs > 0
    ensures i <= |runs| && fileLen == Size(bs, runs[..i]) <= len
    ensures i < |runs| ==> FullAt(bs, runs, len, i)
    ensures Scan(bs, runs, len, 0, 0) == Scan(bs, runs, len, i, fileLen)
  {
    i, fileLen := 0, 0;
    assert runs[..0] == [];
    while i < |runs| && fileLen + ChunkSize(bs, runs[i]) <= len
      invariant i <= |runs| && fileLen == Size(bs, runs[..i]) <= len
      invariant Scan(bs, runs, len, 0, 0) == Scan(bs, runs, len, i, fileLen)
    {
      SizeStep(bs, runs, i);
      fileLen := fileLen + ChunkSize(bs, runs[i]);
      i := i + 1;
    }
  }

  /** move_chunks_up_to_len; `len` is already without the overhead. */
  method MoveChunksUpToLen(from: BackedBlockList, to: BackedBlockList, len: nat) returns (more: bool)
    requires from.Valid() && to.Valid() && to.runs == [] && from != to && from.blockSize == to.blockSize
    modifies from, to
    ensures from.Valid() && to.Valid()
    ensures Round(to.runs, from.runs, more) == Scan(from.blockSize, old(from.runs), len, 0, 0)
  {
    hide Ordered, Fields, Size, ChunkSize, AlignDown;
    var i, fileLen := CountFitting(from.blockSize, from.runs, len);
    more := i < |from.runs|;
    if more && (i == 0 || len - fileLen > len / 8) {
      LongEnough(from.blockSize, from.runs, i, len - fileLen);
      from.Split(i, len - fileLen);
      from.MoveFirst(to, i + 1);
    } else {
      from.MoveFirst(to, i);
    }
  }

  lemma {:induction false} FlattenAppend(pieces: seq<seq<Run>>, p: seq<Run>)
    ensures Flatten(pieces + [p]) == Flatten(pieces) + p
  {
    if pieces == [] {
      FlattenOne(p);
      assert [] + [p] == [p] && [] + p == p;
    } else {
      assert (pieces + [p])[1..] == pieces[1..] + [p];
      FlattenAppend(pieces[1..], p);
    }
  }

  /** What is left for the other files after `c` of them: the files with numbers below `outCount` go
      to the caller, the others back into the input. */
  ghost function Kept(done: seq<seq<Run>>, outCount: nat): seq<Run> {
    if |done| <= outCount then [] else Flatten(done[outCount..])
  }

  lemma KeptStep(done: seq<seq<Run>>, outCount: nat, p: seq<Run>)
    ensures Kept(done + [p], outCount) == if |done| < outCount then [] else Kept(done, outCount) + p
  {
    if |done| > outCount {
      assert (done + [p])[outCount..] == done[outCount..] + [p];
      FlattenAppend(done[outCount..], p);
    } else if |done| == outCount {
      assert (done + [p])[outCount..] == [p];
      FlattenOne(p);
    }
  }

  ghost predicate InOrder(bs: nat, runs: seq<Run>)
    requires bs > 0
  {
    Ordered(bs, runs) && Fields(runs)
  }

  /** One round inside the loop keeps the lists in order. */
  lemma RoundInOrder(bs: nat, kept: seq<Run>, runs: seq<Run>, len: nat)
    requires bs > 0 && InOrder(bs, kept + runs)
    ensures var p := Scan(bs, runs, len, 0, 0);
            InOrder(bs, kept + p.piece + p.rest) && InOrder(bs, kept + p.rest)
  {
    hide Ordered, Fields, Scan;
    OrderedParts(bs, kept, runs);
    RoundKeepsImage(Env(map[], map[]), bs, runs, len);
    var p := Scan(bs, runs, len, 0, 0);
    OrderedBehind(bs, kept, runs, p.piece + p.rest);
    assert kept + (p.piece + p.rest) == kept + p.piece + p.rest;
    OrderedWithout(bs, kept, p.piece, p.rest);
  }

  lemma OrderedWithout(bs: nat, a: seq<Run>, b: seq<Run>, c: seq<Run>)
    requires bs > 0 && InOrder(bs, a + b + c)
    ensures InOrder(bs, a + c)
  {
    var all := a + b + c;
    forall i | 0 <= i < |a + c| ensures (a + c)[i] == all[if i < |a| then i else i + |b|] {
    }
    forall i, j | 0 <= i < j < |a + c| ensures Before(bs, (a + c)[i], (a + c)[j]) {
      assert Before(bs, all[if i < |a| then i else i + |b|], all[if j < |a| then j else j + |b|]);
    }
  }

  /** One turn of the loop: a new list takes what fits. */
  method NextFile(inS: BackedBlockList, ghost kept: seq<Run>, len: nat) returns (s: BackedBlockList, more: bool)
    requires inS.Valid() && Divisible(inS.blockSize, inS.runs, len) && InOrder(inS.blockSize, kept + inS.runs)
    modifies inS
    ensures fresh(s) && s.Valid() && inS.Valid() && s.blockSize == inS.blockSize
    ensures Round(s.runs, inS.runs, more) == Scan(inS.blockSize, old(inS.runs), len, 0, 0)
    ensures InOrder(inS.blockSize, kept + inS.runs) && InOrder(inS.blockSize, kept + s.runs + inS.runs)
    ensures more ==> Weight(inS.runs) < old(Weight(inS.runs)) && Divisible(inS.blockSize, inS.runs, len)
  {
    hide Scan, Divisible;
    RoundInOrder(inS.blockSize, kept, inS.runs, len);
    s := new BackedBlockList(inS.blockSize);
    more := MoveChunksUpToLen(inS, s, len);
    if more {
      RoundShrinks(inS.blockSize, old(inS.runs), len);
    }
  }

  /** A file nobody asked for goes back behind what has been kept. */
  method PutBack(s: BackedBlockList, tmp: BackedBlockList, ghost rest: seq<Run>)
    requires s.Valid() && tmp.Valid() && s != tmp && s.blockSize == tmp.blockSize
    requires InOrder(s.blockSize, tmp.runs + s.runs + rest)
    modifies s, tmp
    ensures tmp.Valid() && tmp.runs == old(tmp.runs) + old(s.runs)
    ensures InOrder(tmp.blockSize, tmp.runs + rest)
  {
    hide Ordered, Fields;
    MoveBehind(s.blockSize, tmp.runs, s.runs, rest);
    s.MoveFirst(tmp, |s.runs|);
  }

  /** The division, one file further. */
  lemma DivideStep(bs: nat, all: seq<seq<Run>>, pieces: seq<seq<Run>>, runs: seq<Run>, len: nat)
    requires bs > 0 && Divisible(bs, runs, len) && all == pieces + Divide(bs, runs, len)
    ensures var p := Scan(bs, runs, len, 0, 0);
            if p.more then Divisible(bs, p.rest, len) && all == pieces + [p.piece] + Divide(bs, p.rest, len)
            else all == pieces + [p.piece] && p.rest == []
  {
    if Scan(bs, runs, len, 0, 0).more {
      RoundShrinks(bs, runs, len);
    } else {
      var stop := RoundTakes(bs, runs, len);
    }
  }

  /** sparse_file_resparse. With `outCount` 0 it only counts; the input then holds the whole image
      again, with its runs cut where the files end. */
  method Resparse(inS: BackedBlockList, maxLen: nat, outCount: nat)
    returns (c: nat, ghost pieces: seq<seq<Run>>, out: seq<seq<Run>>)
    requires inS.Valid() && maxLen < TWO_32 && Divisible(inS.blockSize, inS.runs, RoomOf(maxLen))
    modifies inS
    ensures inS.Valid() && pieces == Divide(inS.blockSize, old(inS.runs), RoomOf(maxLen))
    ensures c == |pieces| && |out| == if c < outCount then c else outCount
    ensures out == pieces[..|out|]
    ensures inS.runs == Kept(pieces, outCount)
  {
    hide Ordered, Fields, Scan, Divide, Divisible;
    var len := RoomOf(maxLen);
    ghost var bs := inS.blockSize;
    ghost var all := Divide(bs, inS.runs, len);
    var tmp := new BackedBlockList(inS.blockSize);
    c, pieces, out := 0, [], [];
    var more := true;
    assert tmp.runs + inS.runs == inS.runs && [] + all == all;
    while more
      invariant fresh(tmp) && tmp.Valid() && inS.Valid() && tmp.blockSize == bs && tmp != inS
      invariant c == |pieces| && |out| == if c < outCount then c else outCount
      invariant out == pieces[..|out|]
      invariant tmp.runs == Kept(pieces, outCount)
      invariant InOrder(bs, tmp.runs + inS.runs) && (more ==> Divisible(bs, inS.runs, len))
      invariant if more then all == pieces + Divide(bs, inS.runs, len) else all == pieces && inS.runs == []
      decreases more, Weight(inS.runs)
    {
      DivideStep(bs, all, pieces, inS.runs, len);
      var s;
      s, more := NextFile(inS, tmp.runs, len);
      KeptStep(pieces, outCount, s.runs);
      pieces := pieces + [s.runs];
      if c < outCount {
        out := out + [s.runs];
      } else {
        PutBack(s, tmp, inS.runs);
      }
      c := c + 1;
    }
    assert tmp.runs[..|tmp.runs|] == tmp.runs;
    tmp.MoveFirst(inS, |tmp.runs|);
  }

  lemma MoveBehind(bs: nat, kept: seq<Run>, piece: seq<Run>, rest: seq<Run>)
    requires bs > 0 && InOrder(bs, kept + piece + rest)
    ensures forall j | 0 <= j < |kept| :: |piece| > 0 ==> Before(bs, kept[j], piece[0])
    ensures kept + piece[..|piece|] == kept + piece && piece[|piece|..] == []
  {
    hide Ordered, Fields;
    OrderedParts(bs, kept + piece, rest);
    OrderedParts(bs, kept, piece);
  }

  /** The two calls of simg2simg: the second finds the image as the first left it, and makes exactly the
      number of files the first announced, with the same runs but for some of no length. */
  method CountThenDivide(inS: BackedBlockList, maxLen: nat)
    returns (files: nat, ghost pieces: seq<seq<Run>>, out: seq<seq<Run>>)
    requires inS.Valid() && Sized(inS.runs) && maxLen < TWO_32
    requires Divisible(inS.blockSize, inS.runs, RoomOf(maxLen))
    modifies inS
    ensures pieces == Divide(inS.blockSize, old(inS.runs), RoomOf(maxLen)) && inS.runs == []
    ensures files == |out| && SameFiles(pieces, out) && (RoomOf(maxLen) >= 8 * inS.blockSize ==> out == pieces)
  {
    hide Divisible, Divide;
    ghost var bs, runs, len := inS.blockSize, inS.runs, RoomOf(maxLen);
    files, pieces, out := Resparse(inS, maxLen, 0);
    assert pieces[0..] == pieces;
    DivideTwice(bs, runs, len);
    var count;
    ghost var again;
    count, again, out := Resparse(inS, maxLen, files);
  }
}
