/** Small directories, record by record and byte by byte. */
module DirExample {
  import opened Common
  import opened Bytes
  import opened DirPack
  import opened DirLayout

  /** A record: inode, record length, length of the name, type, name. */
  lemma RecordExample(e: Entry)
    requires e == Entry(0x01020304, 12, [0x61, 0x62, 0x63], 1)
    ensures Fits(e) && Record(e) == [4, 3, 2, 1, 12, 0, 3, 1, 0x61, 0x62, 0x63, 0]
  {
    assert Le32(0x01020304) == [4, 3, 2, 1] && Le16(12) == [12, 0];
    assert Zeros(1) == [0];
  }

  const ABC: seq<byte> := [0x61, 0x62, 0x63]

  lemma Lengths()
    ensures RecLen(3) == SizeLen(3) == 12
  {
    assert AlignUp(3, 4) == 4;
  }

  /** One name in a block of 64 bytes: the dot entries, the name, and the rest. */
  lemma OneNameExample(ws: seq<Wanted>)
    requires ws == [Wanted(ABC, 1)]
    ensures Directory(2, 5, ws, 64) ==
            [Entry(2, 12, [46], 2), Entry(5, 12, [46, 46], 2), Entry(0, 12, ABC, 1), Entry(0, 28, [], 0)]
  {
    Lengths();
    hide RecLen, SizeLen, Placed, Total;
    var dot, dots, abc := Entry(2, 12, [46], 2), Entry(5, 12, [46, 46], 2), Entry(0, 12, ABC, 1);
    Sums(dot, dots, abc);
    assert SizeAfter(ws, 0, 64) == 24 && SizeAfter(ws, 1, 64) == 36;
    assert DirSize(ws, 64) == 44 && DirLen(ws, 64) == 64;
    OnePlaced([], dot, 0, 64);
    assert [] + [dot] == [dot];
    OnePlaced([dot], dots, 12, 64);
    assert [dot] + [dots] == [dot, dots];
    OnePlaced([dot, dots], abc, 24, 64);
    assert EntryFor(ws[0]) == abc;
    assert [dot, dots] + [abc] == [dot, dots, abc];
    assert DOT == [46] && DOT + DOT == [46, 46];
    assert Packed(2, 5, ws, 0, 64) == [dot, dots] && Packed(2, 5, ws, 1, 64) == [dot, dots, abc];
  }

  lemma Sums(a: Entry, b: Entry, c: Entry)
    ensures Total([]) == 0 && Total([a]) == a.recLen && Total([a, b]) == a.recLen + b.recLen
    ensures Total([a, b, c]) == a.recLen + b.recLen + c.recLen
  {
    assert [a][..0] == [] && [a, b][..1] == [a] && [a, b, c][..2] == [a, b];
  }

  lemma OnePlaced(es: seq<Entry>, e: Entry, o: nat, bs: nat)
    requires bs > 0 && e.recLen > 0 && Total(es) == o && o % bs + e.recLen <= bs && o < bs
    ensures Placed(es, e, bs) == es + [e]
  {
    DivModUnique(0, o, bs);
    DivModUnique(0, o + e.recLen - 1, bs);
  }

  /** The closing record needs eight bytes: they fit into the first block of 32 bytes, but not of 28. */
  lemma ClosingRecordExample()
    ensures DirSize([], 32) == 32 && DirLen([], 32) == 32 && DirSize([], 28) == 36 && DirLen([], 28) == 56
  {
  }

  /** A record that would cross into the next block: the one before it is stretched. */
  lemma StretchExample(a: Entry, b: Entry)
    requires a == Entry(2, 12, [46], 2) && b == Entry(0, 12, ABC, 1)
    ensures Placed([a], b, 16) == [a.(recLen := 16), b]
  {
    assert [a][..0] == [];
    assert Total([a]) == 12 && (12 + 12 - 1) / 16 == 1 && 12 / 16 == 0;
    assert StartAt(12, 12, 16) == 1 * 16;
  }
}
