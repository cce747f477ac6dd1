/** Where directory entries go: dentry_size sets room aside with one fit test, add_dentry places entries
    with another, and the first bounds the second. */
module DirLayout {
  import opened Common
  import opened Bytes
  import opened DirPack

  /** The record length dentry_size counts with, and the one add_dentry uses: there the length of the
      name has been cut to 8 bits. */
  function SizeLen(n: nat): nat { 8 + AlignUp(n, 4) }

  function RecLen(n: nat): (r: nat) { 8 + AlignUp(n % 256, 4) }

  lemma RecLenBounds(n: nat)
    ensures 8 + n % 256 <= RecLen(n) <= 264 && RecLen(n) <= SizeLen(n)
  {
    AlignUpBounds(n % 256, 4);
    AlignUpBounds(n, 4);
    DivMonotone(n % 256 + 3, 255 + 3, 4);
    DivMonotone(n % 256 + 3, n + 3, 4);
  }

  // ----- Room

  /** One round of dentry_size. */
  function Grown(len: nat, d: nat, bs: nat): nat
    requires bs > 0
  {
    (if len % bs + d >= bs then len + (bs - len % bs) else len) + d
  }

  function SizeAfter(ws: seq<Wanted>, k: nat, bs: nat): nat
    requires k <= |ws| && bs > 0
  {
    if k == 0 then 24 else Grown(SizeAfter(ws, k - 1, bs), SizeLen(|ws[k - 1].name|), bs)
  }

  /** dentry_size: the entries and the record that fills the last block. */
  function DirSize(ws: seq<Wanted>, bs: nat): nat
    requires bs > 0
  {
    var len := SizeAfter(ws, |ws|, bs);
    (if len % bs + 8 > bs then len + (bs - len % bs) else len) + 8
  }

  function DirLen(ws: seq<Wanted>, bs: nat): nat
    requires bs > 0
  {
    DivRoundUp(DirSize(ws, bs), bs) * bs
  }

  // ----- Places

  /** Where a record of `r` bytes starts when the offset is `o`. */
  function StartAt(o: nat, r: nat, bs: nat): nat
    requires bs > 0 && r > 0
  {
    var end := (o + r - 1) / bs;
    if o / bs != end then end * bs else o
  }

  /** add_dentry: if the new record would cross into the next block, the one before it is stretched up
      to the boundary first. */
  function Placed(es: seq<Entry>, e: Entry, bs: nat): seq<Entry>
    requires bs > 0 && e.recLen > 0
  {
    var o := Total(es);
    var start := StartAt(o, e.recLen, bs);
    if start > o && es != [] then
      var last := es[|es| - 1];
      es[..|es| - 1] + [last.(recLen := last.recLen + (start - o))] + [e]
    else es + [e]
  }

  const DOT: seq<byte> := [46]

  const FT_DIR: byte := 2

  function EntryFor(w: Wanted): (e: Entry)
    ensures Fits(e) && e.recLen > 0
  {
    RecLenBounds(|w.name|);
    Entry(0, RecLen(|w.name|), w.name[..|w.name| % 256], w.kind)
  }

  /** The entries of make_directory once "." and ".." and `k` others are placed. */
  function Packed(self: nat, parent: nat, ws: seq<Wanted>, k: nat, bs: nat): seq<Entry>
    requires k <= |ws| && bs > 0
  {
    if k == 0 then Placed(Placed([], Entry(self, 12, DOT, FT_DIR), bs), Entry(parent, 12, DOT + DOT, FT_DIR), bs)
    else Placed(Packed(self, parent, ws, k - 1, bs), EntryFor(ws[k - 1]), bs)
  }

  /** With the record that takes the rest. */
  function Directory(self: nat, parent: nat, ws: seq<Wanted>, bs: nat): seq<Entry>
    requires bs > 0
  {
    var es := Packed(self, parent, ws, |ws|, bs);
    es + [Entry(0, if Total(es) <= DirLen(ws, bs) then DirLen(ws, bs) - Total(es) else 0, [], 0)]
  }

  // ----- One step

  /** The test on block numbers, in terms of the room left in the block. */
  lemma CrossTest(o: nat, r: nat, bs: nat)
    requires 0 < r <= bs
    ensures StartAt(o, r, bs) == if o % bs + r > bs then o + (bs - o % bs) else o
    ensures StartAt(o, r, bs) % bs + r <= bs
  {
    hide StartAt;
    CrossTestAt(o / bs, o % bs, r, bs);
    DivModUnique(o / bs + 1, 0, bs);
  }

  lemma CrossTestAt(q: nat, m: nat, r: nat, bs: nat)
    requires 0 < r <= bs && m < bs
    ensures (q + 1) * bs == q * bs + bs
    ensures StartAt(q * bs + m, r, bs) == if m + r > bs then (q + 1) * bs else q * bs + m
  {
    DivModUnique(q, m, bs);
    if m + r <= bs {
      DivModUnique(q, m + r - 1, bs);
    } else {
      DivModUnique(q + 1, m + r - 1 - bs, bs);
    }
  }

  lemma NextBlock(o: nat, s: nat, bs: nat)
    requires bs > 0 && o <= s
    ensures o + (bs - o % bs) <= s || (o - o % bs == s - s % bs && o % bs <= s % bs)
    ensures o + (bs - o % bs) <= s + (bs - s % bs)
  {
    DivMonotone(o, s, bs);
    var p, q := o / bs, s / bs;
    assert o == p * bs + o % bs && s == q * bs + s % bs;
    if p < q {
      MulMonotone(p + 1, q, bs);
      assert (p + 1) * bs == p * bs + bs;
    }
  }

  /** The looser test never lets the placed offset overtake the counted one. */
  lemma StepBound(o: nat, s: nat, r: nat, d: nat, bs: nat)
    requires 0 < r <= d && r <= bs && o <= s
    ensures StartAt(o, r, bs) + r <= Grown(s, d, bs)
  {
    hide StartAt;
    CrossTest(o, r, bs);
    NextBlock(o, s, bs);
  }

  lemma TotalPush(es: seq<Entry>, e: Entry)
    ensures Total(es + [e]) == Total(es) + e.recLen
  {
    assert (es + [e])[..|es|] == es;
  }

  lemma StartBounds(o: nat, r: nat, bs: nat)
    requires 0 < r <= bs
    ensures o <= StartAt(o, r, bs) && StartAt(0, r, bs) == 0
  {
    CrossTest(o, r, bs);
    CrossTest(0, r, bs);
  }

  lemma PlacedTotal(es: seq<Entry>, e: Entry, bs: nat)
    requires bs > 0 && 0 < e.recLen <= bs
    ensures Total(Placed(es, e, bs)) == StartAt(Total(es), e.recLen, bs) + e.recLen
    ensures |Placed(es, e, bs)| == |es| + 1 && Placed(es, e, bs)[|es|] == e
  {
    hide StartAt;
    var o := Total(es);
    var start := StartAt(o, e.recLen, bs);
    StartBounds(o, e.recLen, bs);
    if start > o && es != [] {
      var init, last := es[..|es| - 1], es[|es| - 1];
      var last' := last.(recLen := last.recLen + (start - o));
      TotalPush(init, last');
      TotalPush(init + [last'], e);
    } else {
      TotalPush(es, e);
    }
  }

  // ----- No record crosses a block

  predicate StaysIn(at: nat, n: nat, bs: nat)
    requires bs > 0
  {
    at % bs + n <= bs
  }

  ghost predicate NoneCrosses(es: seq<Entry>, bs: nat)
    requires bs > 0
  {
    forall i | 0 <= i < |es| :: StaysIn(Total(es[..i]), es[i].recLen, bs)
  }

  lemma OffsetAfter(p: nat, n: nat, bs: nat)
    requires bs > 0 && StaysIn(p, n, bs)
    ensures (p + n) % bs == if p % bs + n < bs then p % bs + n else 0
  {
    var q, m := p / bs, p % bs;
    assert p + n == q * bs + (m + n) && (q + 1) * bs == q * bs + bs;
    if m + n < bs {
      DivModUnique(q, m + n, bs);
    } else {
      DivModUnique(q + 1, 0, bs);
    }
  }

  /** A stretched record reaches exactly the end of its block. */
  lemma StretchStays(p: nat, n: nat, r: nat, more: nat, bs: nat)
    requires 0 < r <= bs && StaysIn(p, n, bs) && StartAt(p + n, r, bs) == p + n + more
    ensures StaysIn(p, n + more, bs)
  {
    hide StartAt;
    CrossTest(p + n, r, bs);
    OffsetAfter(p, n, bs);
  }

  lemma PushStays(es: seq<Entry>, e: Entry, bs: nat)
    requires bs > 0 && NoneCrosses(es, bs) && StaysIn(Total(es), e.recLen, bs)
    ensures NoneCrosses(es + [e], bs)
  {
    hide StaysIn;
    var all := es + [e];
    forall i | 0 <= i < |all| ensures StaysIn(Total(all[..i]), all[i].recLen, bs) {
      if i < |es| {
        assert all[..i] == es[..i];
      } else {
        assert all[..i] == es;
      }
    }
  }

  lemma InitStays(es: seq<Entry>, bs: nat)
    requires bs > 0 && NoneCrosses(es, bs) && es != []
    ensures NoneCrosses(es[..|es| - 1], bs) && StaysIn(Total(es[..|es| - 1]), es[|es| - 1].recLen, bs)
  {
    hide StaysIn;
    var init := es[..|es| - 1];
    forall i | 0 <= i < |init| ensures StaysIn(Total(init[..i]), init[i].recLen, bs) {
      assert init[..i] == es[..i];
    }
  }

  lemma PlacedStays(es: seq<Entry>, e: Entry, bs: nat)
    requires bs > 0 && 0 < e.recLen <= bs && NoneCrosses(es, bs)
    ensures NoneCrosses(Placed(es, e, bs), bs)
  {
    hide StartAt, NoneCrosses;
    var o := Total(es);
    var start := StartAt(o, e.recLen, bs);
    StartBounds(o, e.recLen, bs);
    CrossTest(o, e.recLen, bs);
    if start > o && es != [] {
      var init, last := es[..|es| - 1], es[|es| - 1];
      var last' := last.(recLen := last.recLen + (start - o));
      InitStays(es, bs);
      StretchStays(Total(init), last.recLen, e.recLen, start - o, bs);
      PushStays(init, last', bs);
      TotalPush(init, last');
      PushStays(init + [last'], e, bs);
    } else {
      PushStays(es, e, bs);
    }
  }

  // ----- All entries

  /** What stays of an entry when the record length is left aside. */
  function Body(e: Entry): Entry { e.(recLen := 0) }

  lemma PlacedKeepsBodies(es: seq<Entry>, e: Entry, bs: nat)
    requires bs > 0 && 0 < e.recLen <= bs && AllFit(es) && Fits(e)
    ensures AllFit(Placed(es, e, bs))
    ensures forall i | 0 <= i < |es| :: Body(Placed(es, e, bs)[i]) == Body(es[i])
  {
    hide StartAt;
    StartBounds(Total(es), e.recLen, bs);
  }

  /** What the caller asked for, and the two names every directory has. */
  function Asked(self: nat, parent: nat, ws: seq<Wanted>, i: nat): Entry
    requires i < |ws| + 2
  {
    if i == 0 then Entry(self, 0, DOT, FT_DIR)
    else if i == 1 then Entry(parent, 0, DOT + DOT, FT_DIR)
    else Body(EntryFor(ws[i - 2]))
  }

  ghost predicate PackedWell(es: seq<Entry>, self: nat, parent: nat, ws: seq<Wanted>, k: nat, bs: nat)
    requires bs > 0 && k <= |ws|
  {
    && |es| == k + 2 && AllFit(es) && NoneCrosses(es, bs) && Total(es) <= SizeAfter(ws, k, bs)
    && forall i | 0 <= i < |es| :: Body(es[i]) == Asked(self, parent, ws, i)
  }

  lemma {:induction false} PackingIsRight(self: nat, parent: nat, ws: seq<Wanted>, k: nat, bs: nat)
    requires k <= |ws| && bs >= 264 && self < TWO_32 && parent < TWO_32
    ensures PackedWell(Packed(self, parent, ws, k, bs), self, parent, ws, k, bs)
  {
    hide StartAt, Placed, NoneCrosses, Grown, Total;
    if k == 0 {
      FirstTwo(self, parent, bs);
    } else {
      PackingIsRight(self, parent, ws, k - 1, bs);
      var es, e := Packed(self, parent, ws, k - 1, bs), EntryFor(ws[k - 1]);
      RecLenBounds(|ws[k - 1].name|);
      PlacedTotal(es, e, bs);
      PlacedStays(es, e, bs);
      PlacedKeepsBodies(es, e, bs);
      StepBound(Total(es), SizeAfter(ws, k - 1, bs), e.recLen, SizeLen(|ws[k - 1].name|), bs);
    }
  }

  lemma FirstTwo(self: nat, parent: nat, bs: nat)
    requires bs >= 264 && self < TWO_32 && parent < TWO_32
    ensures var a, b := Entry(self, 12, DOT, FT_DIR), Entry(parent, 12, DOT + DOT, FT_DIR);
            var es := Placed(Placed([], a, bs), b, bs);
            es == [a, b] && AllFit(es) && NoneCrosses(es, bs) && Total(es) == 24
  {
    var a, b := Entry(self, 12, DOT, FT_DIR), Entry(parent, 12, DOT + DOT, FT_DIR);
    assert NoneCrosses([], bs);
    CrossTest(0, 12, bs);
    CrossTest(12, 12, bs);
    assert 12 % bs == 12 by { DivModUnique(0, 12, bs); }
    assert Placed([], a, bs) == [a];
    TotalPush([], a);
    assert Placed([a], b, bs) == [a, b];
    TotalPush([a], b);
    PlacedStays([], a, bs);
    PlacedStays([a], b, bs);
  }

  // ----- Main results

  lemma {:induction false} SizeGrows(ws: seq<Wanted>, k: nat, bs: nat)
    requires bs > 0 && k <= |ws|
    ensures SizeAfter(ws, k, bs) <= SizeAfter(ws, |ws|, bs)
    decreases |ws| - k
  {
    if k < |ws| {
      SizeGrows(ws, k + 1, bs);
    }
  }

  /** However many entries have been placed, eight bytes are left for the closing record: the internal
      error of make_directory cannot occur. */
  lemma RoomRemains(self: nat, parent: nat, ws: seq<Wanted>, k: nat, bs: nat)
    requires k <= |ws| && bs >= 264 && self < TWO_32 && parent < TWO_32
    ensures Total(Packed(self, parent, ws, k, bs)) + 8 <= DirLen(ws, bs)
  {
    hide Packed, Total, Grown;
    PackingIsRight(self, parent, ws, k, bs);
    SizeGrows(ws, k, bs);
    AlignUpBounds(DirSize(ws, bs), bs);
    assert AlignUp(DirSize(ws, bs), bs) == DirLen(ws, bs);
  }

  /** The whole directory: every name in order, none across a block, and a reader that follows the record
      lengths finds exactly these entries and the end, if and only if the closing record is short enough
      for its 16 bits. */
  lemma DirectoryIsRight(self: nat, parent: nat, ws: seq<Wanted>, bs: nat)
    requires 264 <= bs < TWO_16 && self < TWO_32 && parent < TWO_32
    ensures var es := Directory(self, parent, ws, bs);
            && |es| == |ws| + 3 && AllFit(es) && Total(es) == DirLen(ws, bs)
            && NoneCrosses(es[..|ws| + 2], bs)
            && (forall i | 0 <= i < |ws| + 2 :: Body(es[i]) == Asked(self, parent, ws, i))
            && 8 <= es[|ws| + 2].recLen && es[|ws| + 2].inode == 0
            && (Parse(Image(es), 0) == Some(es) <==> es[|ws| + 2].recLen < TWO_16)
  {
    hide Packed, Total, Parse, Image, NoneCrosses, DirLen, SizeAfter;
    var named, es := Packed(self, parent, ws, |ws|, bs), Directory(self, parent, ws, bs);
    PackingIsRight(self, parent, ws, |ws|, bs);
    RoomRemains(self, parent, ws, |ws|, bs);
    assert es[..|ws| + 2] == named;
    TotalPush(named, es[|ws| + 2]);
    NamedAreShort(named, bs);
    ParseInvertsImage(es);
  }

  lemma NamedAreShort(es: seq<Entry>, bs: nat)
    requires bs > 0 && NoneCrosses(es, bs)
    ensures forall i | 0 <= i < |es| :: es[i].recLen <= bs
  {
    hide Total;
    forall i | 0 <= i < |es| ensures es[i].recLen <= bs {
      assert StaysIn(Total(es[..i]), es[i].recLen, bs);
    }
  }

  // ----- Where the two fit tests drift apart

  /** Names of 248 bytes: sixteen records fill a block of 4096 exactly, but dentry_size counts on
      fifteen. */
  ghost predicate LongNames(ws: seq<Wanted>) { forall i | 0 <= i < |ws| :: |ws[i].name| == 248 }

  lemma {:induction false} CountedFirst(ws: seq<Wanted>, k: nat)
    requires LongNames(ws) && k <= |ws| && k <= 15
    ensures SizeAfter(ws, k, 4096) == 24 + 256 * k
  {
    if k > 0 {
      CountedFirst(ws, k - 1);
    }
  }

  lemma GrownLong(q: nat, m: nat)
    requires m < 4096
    ensures Grown(4096 * q + m, 256, 4096) == if m < 3840 then 4096 * q + m + 256 else 4096 * (q + 1) + 256
  {
  }

  lemma {:induction false} CountedAfter(ws: seq<Wanted>, q: nat, r: nat)
    requires LongNames(ws) && r < 15 && 16 + 15 * q + r <= |ws|
    ensures SizeAfter(ws, 16 + 15 * q + r, 4096) == 4096 * (q + 1) + 256 * (r + 1)
    decreases q, r
  {
    hide Grown;
    assert SizeLen(248) == 256;
    if r > 0 {
      CountedAfter(ws, q, r - 1);
      GrownLong(q + 1, 256 * r);
    } else if q > 0 {
      CountedAfter(ws, q - 1, 14);
      GrownLong(q, 3840);
    } else {
      GrownLong(0, 3864);
      CountedFirst(ws, 15);
    }
  }

  lemma StartLong(q: nat, m: nat)
    requires m < 4096
    ensures StartAt(4096 * q + m, 256, 4096) == if m <= 3840 then 4096 * q + m else 4096 * (q + 1)
  {
    CrossTestAt(q, m, 256, 4096);
  }

  lemma {:induction false} PlacedFirst(self: nat, parent: nat, ws: seq<Wanted>, k: nat)
    requires LongNames(ws) && k <= |ws| && k <= 15 && self < TWO_32 && parent < TWO_32
    ensures Total(Packed(self, parent, ws, k, 4096)) == 24 + 256 * k
  {
    hide Placed, Total, StartAt;
    if k == 0 {
      FirstTwo(self, parent, 4096);
    } else {
      PlacedFirst(self, parent, ws, k - 1);
      PlacedTotal(Packed(self, parent, ws, k - 1, 4096), EntryFor(ws[k - 1]), 4096);
      StartLong(0, 24 + 256 * (k - 1));
    }
  }

  lemma {:induction false} PlacedAfter(self: nat, parent: nat, ws: seq<Wanted>, q: nat, r: nat)
    requires LongNames(ws) && r < 16 && 16 + 16 * q + r <= |ws| && self < TWO_32 && parent < TWO_32
    ensures Total(Packed(self, parent, ws, 16 + 16 * q + r, 4096)) == 4096 * (q + 1) + 256 * (r + 1)
    decreases q, r
  {
    hide Placed, Total, StartAt;
    var k := 16 + 16 * q + r;
    var es := Packed(self, parent, ws, k - 1, 4096);
    assert EntryFor(ws[k - 1]).recLen == 256;
    PlacedTotal(es, EntryFor(ws[k - 1]), 4096);
    if r > 0 {
      PlacedAfter(self, parent, ws, q, r - 1);
      StartLong(q + 1, 256 * r);
    } else if q > 0 {
      PlacedAfter(self, parent, ws, q - 1, 15);
      StartLong(q + 1, 0);
    } else {
      PlacedFirst(self, parent, ws, 15);
      StartLong(0, 3864);
    }
  }

  /** So the closing record grows by a block for every 240 such names. */
  lemma ClosingRecordGrows(self: nat, parent: nat, ws: seq<Wanted>, j: nat)
    requires LongNames(ws) && j > 0 && |ws| == 15 + 240 * j && self < TWO_32 && parent < TWO_32
    ensures |Directory(self, parent, ws, 4096)| == |ws| + 3
    ensures Directory(self, parent, ws, 4096)[|ws| + 2].recLen == 4096 * j
  {
    hide Packed, Total, SizeAfter;
    CountedAfter(ws, 16 * j - 1, 14);
    PlacedAfter(self, parent, ws, 15 * j - 1, 15);
    PackingIsRight(self, parent, ws, |ws|, 4096);
    assert DirSize(ws, 4096) == 4096 * (16 * j) + 3848;
    assert DivRoundUp(DirSize(ws, 4096), 4096) == 16 * j + 1;
  }

  /** 3855 names of 248 bytes: the closing record is 64 KB long, its 16-bit length is 0, and the reader
      does not get to the end. */
  lemma TooManyLongNames(self: nat, parent: nat, ws: seq<Wanted>)
    requires LongNames(ws) && |ws| == 3855 && self < TWO_32 && parent < TWO_32
    ensures var es := Directory(self, parent, ws, 4096); AllFit(es) && Parse(Image(es), 0) != Some(es)
  {
    hide Directory, Parse, Image, DirLen;
    ClosingRecordGrows(self, parent, ws, 16);
    DirectoryIsRight(self, parent, ws, 4096);
  }
}
