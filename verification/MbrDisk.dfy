/** Committing a write list, and reading partitions back from a disk. */
module MbrDisk {
  import opened Common
  import opened Bytes
  import opened MbrModel

  // ----- Writing

  predicate Inside(x: Item, size: nat) { x.offset + |x.data| <= size }

  function Applied(disk: seq<byte>, x: Item): (r: seq<byte>)
    ensures |r| == |disk|
  {
    if Inside(x, |disk|) then Overwritten(disk, x.offset, x.data) else disk
  }

  /** wlist_commit. */
  function Commit(disk: seq<byte>, list: seq<Item>): (r: seq<byte>)
    ensures |r| == |disk|
    decreases |list|
  {
    if list == [] then disk else Commit(Applied(disk, list[0]), list[1..])
  }

  predicate Apart(x: Item, y: Item) { x.offset + |x.data| <= y.offset || y.offset + |y.data| <= x.offset }

  ghost predicate AllApart(list: seq<Item>) {
    forall i, j {:trigger Apart(list[i], list[j])} | 0 <= i < j < |list| :: Apart(list[i], list[j])
  }

  /** Bytes that no item covers stay as they are. */
  lemma {:induction false} CommitSpares(disk: seq<byte>, list: seq<Item>, at: nat, b: seq<byte>)
    requires StandsAt(disk, at, b) && forall i | 0 <= i < |list| :: Apart(Item(at, b), list[i])
    ensures StandsAt(Commit(disk, list), at, b)
    decreases |list|
  {
    if list != [] {
      var now := Applied(disk, list[0]);
      assert Apart(Item(at, b), list[0]);
      OneSpares(disk, list[0], at, b);
      CommitSpares(now, list[1..], at, b);
    }
  }

  lemma OneSpares(disk: seq<byte>, x: Item, at: nat, b: seq<byte>)
    requires StandsAt(disk, at, b) && Apart(Item(at, b), x)
    ensures StandsAt(Applied(disk, x), at, b)
  {
    var now := Applied(disk, x);
    assert now[at..at + |b|] == disk[at..at + |b|];
  }

  lemma OneStands(disk: seq<byte>, x: Item)
    requires Inside(x, |disk|)
    ensures StandsAt(Applied(disk, x), x.offset, x.data)
  {
  }

  /** Of items that are apart, every one stands after the commit. */
  lemma {:induction false} CommitStands(disk: seq<byte>, list: seq<Item>, k: nat)
    requires AllApart(list) && k < |list| && Inside(list[k], |disk|)
    ensures StandsAt(Commit(disk, list), list[k].offset, list[k].data)
    decreases |list|
  {
    var now, rest := Applied(disk, list[0]), list[1..];
    forall i, j | 0 <= i < j < |rest| ensures Apart(rest[i], rest[j]) {
      assert Apart(list[i + 1], list[j + 1]);
    }
    if k == 0 {
      OneStands(disk, list[0]);
      forall i | 0 <= i < |rest| ensures Apart(Item(list[0].offset, list[0].data), rest[i]) {
        assert Apart(list[0], list[i + 1]);
      }
      CommitSpares(now, rest, list[0].offset, list[0].data);
    } else {
      CommitStands(now, rest, k - 1);
    }
  }

  // ----- Reading

  /** A table entry; `chs` are the six bytes of its old-style addresses. */
  datatype Entry = Entry(status: byte, kind: byte, start: nat, len: nat, chs: seq<byte>)

  function ReadEntry(disk: seq<byte>, at: nat): Entry
    requires at + 16 <= |disk|
  {
    Entry(disk[at], disk[at + 4], Get32(disk, at + 8), Get32(disk, at + 12),
          disk[at + 1..at + 4] + disk[at + 5..at + 8])
  }

  /** An entry as config_mbr writes it: the old-style addresses are all ones, or zero when it is empty. */
  function Told(active: bool, kind: byte, start: nat, len: nat): Entry {
    Entry(if active then 0x80 else 0, kind, start, len, if len > 0 then [255, 255, 255, 255, 255, 255] else [0, 0, 0, 0, 0, 0])
  }

  lemma EntryReads(disk: seq<byte>, at: nat, active: bool, kind: byte, start: nat, len: nat)
    requires StandsAt(disk, at, EntryBytes(active, kind, start, len)) && start < TWO_32 && len < TWO_32
    ensures ReadEntry(disk, at) == Told(active, kind, start, len)
  {
    hide Get32, Le32;
    var b := EntryBytes(active, kind, start, len);
    var head: seq<byte> := [if active then 0x80 else 0] + Chs(len) + [kind] + Chs(len);
    StandsParts(disk, at, head + Le32(start), Le32(len));
    StandsParts(disk, at, head, Le32(start));
    Field32(disk, at + 8, start);
    Field32(disk, at + 12, len);
    HeadReads(disk, at, if active then 0x80 else 0, kind, Chs(len));
  }

  lemma HeadReads(disk: seq<byte>, at: nat, status: byte, kind: byte, chs: seq<byte>)
    requires |chs| == 3 && StandsAt(disk, at, [status] + chs + [kind] + chs)
    ensures disk[at] == status && disk[at + 4] == kind
    ensures disk[at + 1..at + 4] == chs && disk[at + 5..at + 8] == chs
  {
    StandsParts(disk, at, [status] + chs + [kind], chs);
    StandsParts(disk, at, [status] + chs, [kind]);
    StandsParts(disk, at, [status], chs);
  }

  /** A partition as a reader of the tables knows it: its number, where it lies, and whether it is the one
      to boot from. */
  datatype Found = Found(number: nat, start: nat, len: nat, kind: byte, active: bool)

  /** The chain of extended boot records from sector `at` on; at most `fuel` of them. */
  function Chain(disk: seq<byte>, sect: nat, ext: nat, at: nat, number: nat, fuel: nat): seq<Found>
    decreases fuel
  {
    var b := at * sect;
    if fuel == 0 || |disk| < b + 512 || Get16(disk, b + 510) != 0xaa55 then []
    else
      var logical, next := ReadEntry(disk, b + 446), ReadEntry(disk, b + 462);
      [Found(number, at + logical.start, logical.len, logical.kind, logical.status == 0x80)]
      + if next.kind == 5 && next.len > 0 then Chain(disk, sect, ext, ext + next.start, number + 1, fuel - 1)
        else []
  }

  /** The four primary entries from slot `p` on: empty ones are skipped, an extended one leads to a chain
      whose partitions are numbered from 5. */
  function Table(disk: seq<byte>, sect: nat, p: nat, fuel: nat): seq<Found>
    requires |disk| >= 512
    decreases 4 - p
  {
    if p >= 4 then []
    else
      var e := ReadEntry(disk, 446 + 16 * p);
      (if e.len == 0 then []
       else if e.kind == 5 then Chain(disk, sect, e.start, e.start, 5, fuel)
       else [Found(p + 1, e.start, e.len, e.kind, e.status == 0x80)])
      + Table(disk, sect, p + 1, fuel)
  }

  function Walk(disk: seq<byte>, sect: nat, fuel: nat): seq<Found> {
    if |disk| < 512 || Get16(disk, 510) != 0xaa55 then [] else Table(disk, sect, 0, fuel)
  }
}
