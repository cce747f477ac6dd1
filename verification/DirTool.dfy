/** dentry_size, add_dentry and make_directory at work on a byte buffer. */
module DirTool {
  import opened Common
  import opened Bytes
  import opened DirPack
  import opened DirLayout

  /** dentry_size. */
  method DentrySize(ws: seq<Wanted>, bs: nat) returns (len: nat)
    requires bs > 0
    ensures len == DirSize(ws, bs)
  {
    hide AlignUp;
    len := 24;
    for i := 0 to |ws|
      invariant len == SizeAfter(ws, i, bs)
    {
      var d := 8 + AlignUp(|ws[i].name|, 4);
      if len % bs + d >= bs {
        len := len + (bs - len % bs);
      }
      len := len + d;
    }
    if len % bs + 8 > bs {
      len := len + (bs - len % bs);
    }
    len := len + 8;
  }

  /** memcpy into the buffer. */
  method Copy(data: array<byte>, at: nat, s: seq<byte>)
    requires at + |s| <= data.Length
    modifies data
    ensures data[..] == Overwritten(old(data[..]), at, s)
  {
    for i := 0 to |s|
      invariant forall k | 0 <= k < data.Length :: data[k] == if at <= k < at + i then s[k - at] else old(data[k])
    {
      data[at + i] := s[i];
    }
  }

  // ----- The buffer while it is being filled

  /** The records so far, and zeros behind them. */
  ghost predicate Holds(data: seq<byte>, es: seq<Entry>) {
    AllFit(es) && Total(es) <= |data| && data == Image(es) + Zeros(|data| - Total(es))
  }

  /** The records end at `offset`, and the last of them starts at `at`. */
  ghost predicate Ends(data: seq<byte>, es: seq<Entry>, offset: nat, at: nat) {
    es != [] && Holds(data, es) && offset == Total(es) && at == Total(es[..|es| - 1])
  }

  lemma ZerosSplit(a: nat, b: nat)
    ensures Zeros(a + b) == Zeros(a) + Zeros(b)
  {
  }

  lemma ImagePush(es: seq<Entry>, e: Entry)
    requires AllFit(es) && Fits(e)
    ensures AllFit(es + [e]) && Image(es + [e]) == Image(es) + Record(e) && Total(es + [e]) == Total(es) + e.recLen
  {
    assert (es + [e])[..|es|] == es;
  }

  lemma FillZeros(front: seq<byte>, s: seq<byte>, pad: nat, rest: nat)
    ensures Overwritten(front + Zeros(|s| + pad + rest), |front|, s) == front + (s + Zeros(pad)) + Zeros(rest)
  {
    var was := front + Zeros(|s| + pad + rest);
    assert was[|front| + |s|..] == Zeros(pad) + Zeros(rest);
    assert was[..|front|] == front;
  }

  lemma StretchZeros(front: seq<byte>, a: seq<byte>, b: seq<byte>, b': seq<byte>, c: seq<byte>, pad: nat, more: nat, rest: nat)
    requires |b| == |b'|
    ensures Overwritten(front + (a + b + c + Zeros(pad)) + Zeros(more + rest), |front| + |a|, b')
         == front + (a + b' + c + Zeros(pad + more)) + Zeros(rest)
  {
    hide Zeros;
    ZerosSplit(more, rest);
    ZerosSplit(pad, more);
    var back := c + Zeros(pad) + Zeros(more) + Zeros(rest);
    var was := (front + a) + b + back;
    assert front + (a + b + c + Zeros(pad)) + Zeros(more + rest) == was;
    assert was[|front| + |a| + |b|..] == back;
    assert was[..|front| + |a|] == front + a;
    assert front + (a + b' + c + Zeros(pad + more)) + Zeros(rest) == (front + a) + b' + back;
  }

  /** Writing a header and a name into the zeros appends a record. */
  lemma RecordAppended(data: seq<byte>, es: seq<Entry>, e: Entry)
    requires Holds(data, es) && Fits(e) && Total(es) + e.recLen <= |data|
    ensures Holds(Overwritten(data, Total(es), Head(e) + e.name), es + [e])
  {
    hide Head, Zeros, Image, Overwritten, Total;
    ImagePush(es, e);
    FillZeros(Image(es), Head(e) + e.name, e.recLen - 8 - |e.name|, |data| - Total(es) - e.recLen);
  }

  /** Writing a new length into the last header stretches the last record over zeros. */
  lemma RecordStretched(data: seq<byte>, init: seq<Entry>, e: Entry, more: nat)
    requires AllFit(init) && Holds(data, init + [e]) && Total(init + [e]) + more <= |data|
    ensures Total(init) + 6 <= |data|
    ensures Holds(Overwritten(data, Total(init) + 4, Le16(e.recLen + more)), init + [e.(recLen := e.recLen + more)])
  {
    hide Le16, Le32, Zeros, Image, Overwritten, Total;
    var e' := e.(recLen := e.recLen + more);
    assert Fits((init + [e])[|init|]);
    ImagePush(init, e);
    ImagePush(init, e');
    var pad := e.recLen - 8 - |e.name|;
    var c := [|e.name| as byte, e.kind] + e.name;
    assert Record(e) == Le32(e.inode) + Le16(e.recLen) + c + Zeros(pad);
    assert Record(e') == Le32(e.inode) + Le16(e'.recLen) + c + Zeros(pad + more);
    StretchZeros(Image(init), Le32(e.inode), Le16(e.recLen), Le16(e'.recLen), c, pad, more,
                 |data| - Total(init) - e.recLen - more);
  }

  /** add_dentry: `prev` is where the record before the new one starts, if there is one. The name is cut
      to the length that fits its 8-bit field. */
  method AddDentry(data: array<byte>, offset: nat, prev: Option<nat>, inode: nat, name: seq<byte>, kind: byte,
                   bs: nat, ghost es: seq<Entry>) returns (offset': nat, at: nat)
    requires inode < TWO_32 && bs >= 264 && Holds(data[..], es) && offset == Total(es)
    requires prev == if es == [] then None else Some(Total(es[..|es| - 1]))
    requires forall i | 0 <= i < |es| :: es[i].recLen < TWO_16
    requires Total(Placed(es, Entry(inode, RecLen(|name|), name[..|name| % 256], kind), bs)) <= data.Length
    modifies data
    ensures var now := Placed(es, Entry(inode, RecLen(|name|), name[..|name| % 256], kind), bs);
            Ends(data[..], now, offset', at)
  {
    hide StartAt, Holds, Overwritten, Head, AlignUp, Total, Fits;
    var nameLen := |name| % 256;
    var recLen := 8 + AlignUp(nameLen, 4);
    ghost var e := Entry(inode, recLen, name[..nameLen], kind);
    EntryFits(inode, name, kind);
    PlacedTotal(es, e, bs);
    StartIs(offset, recLen, bs);
    EmptyTotal(es);
    at := offset;
    ghost var es1 := es;
    var end := (offset + recLen - 1) / bs;
    if offset / bs != end {
      es1 := Stretch(data, prev.value, end * bs - offset, es);
      at := end * bs;
    }
    RecordAppended(data[..], es1, e);
    HeadIs(e);
    Copy(data, at, Le32(inode) + Le16(recLen) + [nameLen as byte, kind] + name[..nameLen]);
    offset' := at + recLen;
    assert Placed(es, e, bs) == es1 + [e];
    assert (es1 + [e])[..|es1|] == es1;
    TotalPush(es1, e);
  }

  lemma HeadIs(e: Entry)
    requires |e.name| < 256
    ensures Head(e) == Le32(e.inode) + Le16(e.recLen) + [|e.name| as byte, e.kind]
  {
  }

  lemma EntryFits(inode: nat, name: seq<byte>, kind: byte)
    requires inode < TWO_32
    ensures Fits(Entry(inode, RecLen(|name|), name[..|name| % 256], kind)) && 0 < RecLen(|name|) <= 264
  {
    RecLenBounds(|name|);
  }

  lemma EmptyTotal(es: seq<Entry>)
    ensures es == [] ==> Total(es) == 0
  {
  }

  lemma InitFits(data: seq<byte>, es: seq<Entry>)
    requires Holds(data, es) && es != []
    ensures AllFit(es[..|es| - 1])
  {
  }

  /** prev->rec_len grows up to the block boundary. */
  method Stretch(data: array<byte>, prev: nat, more: nat, ghost es: seq<Entry>) returns (ghost es1: seq<Entry>)
    requires Holds(data[..], es) && es != [] && prev == Total(es[..|es| - 1]) && es[|es| - 1].recLen < TWO_16
    requires Total(es) + more <= data.Length
    modifies data
    ensures var last := es[|es| - 1]; es1 == es[..|es| - 1] + [last.(recLen := last.recLen + more)]
    ensures Holds(data[..], es1) && Total(es1) == Total(es) + more
  {
    hide Overwritten, Image, Total, Holds, Le16;
    ghost var init, last := es[..|es| - 1], es[|es| - 1];
    assert init + [last] == es;
    InitFits(data[..], es);
    TotalPush(init, last);
    RecordStretched(data[..], init, last, more);
    var was := RecordLength(data, prev, es);
    Copy(data, prev + 4, Le16(was + more));
    es1 := init + [last.(recLen := last.recLen + more)];
    TotalPush(init, last.(recLen := last.recLen + more));
  }

  lemma StartIs(o: nat, r: nat, bs: nat)
    requires 0 < r <= bs
    ensures var end := (o + r - 1) / bs;
            if o / bs != end then 0 < o < end * bs == StartAt(o, r, bs) else StartAt(o, r, bs) == o
  {
    hide *;
    assert o == o / bs * bs + o % bs;
    StartIsAt(o / bs, o % bs, r, bs);
  }

  lemma StartIsAt(q: nat, m: nat, r: nat, bs: nat)
    requires 0 < r <= bs && m < bs
    ensures var o := q * bs + m;
            var end := (o + r - 1) / bs;
            if o / bs != end then 0 < o < end * bs == StartAt(o, r, bs) else StartAt(o, r, bs) == o
  {
    CrossTestAt(q, m, r, bs);
    DivModUnique(q, m, bs);
    if m + r <= bs {
      DivModUnique(q, m + r - 1, bs);
    } else {
      DivModUnique(q + 1, m + r - 1 - bs, bs);
    }
  }

  /** prev->rec_len. */
  method RecordLength(data: array<byte>, at: nat, ghost es: seq<Entry>) returns (n: nat)
    requires Holds(data[..], es) && es != [] && at == Total(es[..|es| - 1]) && es[|es| - 1].recLen < TWO_16
    ensures n == es[|es| - 1].recLen
  {
    ghost var e := es[|es| - 1];
    ImageHas(es, |es| - 1);
    StandsLonger(data[..], Image(es), at, Record(e));
    StandsParts(data[..], at, Head(e) + e.name, Zeros(e.recLen - 8 - |e.name|));
    StandsParts(data[..], at, Head(e), e.name);
    HeadFields(data[..], at, e);
    n := data[at + 4] as int + 0x100 * (data[at + 5] as int);
  }

  lemma StandsLonger(s: seq<byte>, t: seq<byte>, p: nat, b: seq<byte>)
    requires t <= s && StandsAt(t, p, b)
    ensures StandsAt(s, p, b)
  {
    assert s[p..p + |b|] == t[p..p + |b|];
  }

  lemma EmptyHolds(data: seq<byte>)
    requires forall i | 0 <= i < |data| :: data[i] == 0
    ensures Holds(data, [])
  {
    assert data == Zeros(|data|);
  }

  lemma FullImage(data: seq<byte>, es: seq<Entry>)
    requires Holds(data, es) && Total(es) == |data|
    ensures AllFit(es) && data == Image(es)
  {
  }

  lemma OneRoom(self: nat, parent: nat, bs: nat)
    requires bs >= 264 && self < TWO_32 && parent < TWO_32
    ensures RecLen(1) == RecLen(2) == 12 && DOT[..1] == DOT && (DOT + DOT)[..2] == DOT + DOT
    ensures Placed([], Entry(self, 12, DOT, FT_DIR), bs) == [Entry(self, 12, DOT, FT_DIR)]
    ensures Total([Entry(self, 12, DOT, FT_DIR)]) == 12 && Total([]) == 0
  {
    StartBounds(0, 12, bs);
    TotalPush([], Entry(self, 12, DOT, FT_DIR));
    assert [] + [Entry(self, 12, DOT, FT_DIR)] == [Entry(self, 12, DOT, FT_DIR)];
  }

  lemma RoomForTwo(self: nat, parent: nat, ws: seq<Wanted>, bs: nat)
    requires bs >= 264 && self < TWO_32 && parent < TWO_32
    ensures DirLen(ws, bs) >= 24
  {
    hide DirLen, Placed, Total, NoneCrosses;
    FirstTwo(self, parent, bs);
    RoomRemains(self, parent, ws, 0, bs);
  }

  lemma NextFits(self: nat, parent: nat, ws: seq<Wanted>, i: nat, bs: nat)
    requires i < |ws| && 264 <= bs < TWO_16 && self < TWO_32 && parent < TWO_32
    ensures var es, e := Packed(self, parent, ws, i, bs), EntryFor(ws[i]);
            && (forall j | 0 <= j < |es| :: es[j].recLen < TWO_16)
            && Placed(es, e, bs) == Packed(self, parent, ws, i + 1, bs)
            && Total(Placed(es, e, bs)) <= DirLen(ws, bs)
            && e == Entry(0, RecLen(|ws[i].name|), ws[i].name[..|ws[i].name| % 256], ws[i].kind)
  {
    hide Placed, Total, NoneCrosses, DirLen;
    PackingIsRight(self, parent, ws, i, bs);
    NamedAreShort(Packed(self, parent, ws, i, bs), bs);
    RoomRemains(self, parent, ws, i + 1, bs);
  }

  /** The layout part of make_directory: the buffer holds the directory. The inode numbers of the entries
      are filled in later. */
  method MakeDirectory(self: nat, parent: nat, ws: seq<Wanted>, bs: nat) returns (data: array<byte>)
    requires 264 <= bs < TWO_16 && self < TWO_32 && parent < TWO_32
    ensures fresh(data) && data.Length == DirLen(ws, bs)
    ensures var es := Directory(self, parent, ws, bs); AllFit(es) && data[..] == Image(es)
  {
    hide Holds, Placed, Total, DirLen, SizeAfter, NoneCrosses, Image, Zeros, RecLen, Parse, EntryFor, Asked, PackedWell;
    var len := BufferLength(ws, bs);
    data := new byte[len](_ => 0);
    EmptyHolds(data[..]);
    RoomForTwo(self, parent, ws, bs);
    var offset, at := FirstEntries(data, self, parent, bs);
    for i := 0 to |ws|
      invariant Ends(data[..], Packed(self, parent, ws, i, bs), offset, at)
    {
      NextFits(self, parent, ws, i, bs);
      offset, at := AddDentry(data, offset, Some(at), 0, ws[i].name, ws[i].kind, bs, Packed(self, parent, ws, i, bs));
    }
    RoomRemains(self, parent, ws, |ws|, bs);
    Close(data, offset, Packed(self, parent, ws, |ws|, bs));
  }

  method BufferLength(ws: seq<Wanted>, bs: nat) returns (len: nat)
    requires bs > 0
    ensures len == DirLen(ws, bs)
  {
    var size := DentrySize(ws, bs);
    len := DivRoundUp(size, bs) * bs;
  }

  /** "." and "..". */
  method FirstEntries(data: array<byte>, self: nat, parent: nat, bs: nat) returns (offset: nat, at: nat)
    requires Holds(data[..], []) && bs >= 264 && self < TWO_32 && parent < TWO_32 && data.Length >= 24
    modifies data
    ensures Ends(data[..], Packed(self, parent, [], 0, bs), offset, at)
  {
    hide Holds, Placed, Total, RecLen, NoneCrosses;
    FirstTwo(self, parent, bs);
    OneRoom(self, parent, bs);
    offset, at := AddDentry(data, 0, None, self, DOT, FT_DIR, bs, []);
    offset, at := AddDentry(data, offset, Some(at), parent, DOT + DOT, FT_DIR, bs, [Entry(self, 12, DOT, FT_DIR)]);
  }

  /** The record that takes the rest of the buffer. */
  method Close(data: array<byte>, offset: nat, ghost es: seq<Entry>)
    requires Holds(data[..], es) && offset == Total(es) && offset + 8 <= data.Length
    modifies data
    ensures var all := es + [Entry(0, data.Length - offset, [], 0)]; AllFit(all) && data[..] == Image(all)
  {
    hide Holds, Total, Image, Zeros, Le16, Le32;
    ghost var last := Entry(0, data.Length - offset, [], 0);
    RecordAppended(data[..], es, last);
    assert Head(last) + last.name == Le32(0) + Le16(data.Length - offset) + [0, 0];
    Copy(data, offset, Le32(0) + Le16(data.Length - offset) + [0, 0]);
    TotalPush(es, last);
    FullImage(data[..], es + [last]);
  }
}
