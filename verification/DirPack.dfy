/** Directory blocks as ext4_utils/contents.c packs them: how much room is set aside, where each entry
    goes, and what a reader finds by following the record lengths. */
module DirPack {
  import opened Common
  import opened Bytes

  /** struct ext4_dir_entry_2. */
  datatype Entry = Entry(inode: nat, recLen: nat, name: seq<byte>, kind: byte)

  /** struct dentry: what the caller asks for. */
  datatype Wanted = Wanted(name: seq<byte>, kind: byte)

  // ----- Records

  /** A record can be written out: its name fits, and every field fits its width. */
  predicate Fits(e: Entry) {
    e.inode < TWO_32 && |e.name| < 256 && 8 + |e.name| <= e.recLen
  }

  function Head(e: Entry): (s: seq<byte>)
    requires |e.name| < 256
    ensures |s| == 8
  {
    Le32(e.inode) + Le16(e.recLen) + [|e.name|, e.kind]
  }

  function Record(e: Entry): (s: seq<byte>)
    requires Fits(e)
    ensures |s| == e.recLen
  {
    Head(e) + e.name + Zeros(e.recLen - 8 - |e.name|)
  }

  ghost predicate AllFit(es: seq<Entry>) { forall i | 0 <= i < |es| :: Fits(es[i]) }

  function Total(es: seq<Entry>): nat { if es == [] then 0 else Total(es[..|es| - 1]) + es[|es| - 1].recLen }

  function Image(es: seq<Entry>): (s: seq<byte>)
    requires AllFit(es)
    ensures |s| == Total(es)
  {
    if es == [] then [] else Image(es[..|es| - 1]) + Record(es[|es| - 1])
  }

  /** A reader that follows the record lengths from byte `at` to the end; None when a record does not
      hold its own header and name, or runs past the end. */
  function Parse(s: seq<byte>, at: nat): Option<seq<Entry>>
    decreases |s| - at
  {
    if at == |s| then Some([])
    else if |s| < at + 8 then None
    else
      var recLen, nameLen := Get16(s, at + 4), s[at + 6] as int;
      if recLen < 8 + nameLen || |s| < at + recLen then None
      else
        var rest := Parse(s, at + recLen);
        if rest.None? then None
        else Some([Entry(Get32(s, at), recLen, s[at + 8..at + 8 + nameLen], s[at + 7])] + rest.value)
  }

  lemma HeadFields(s: seq<byte>, at: nat, e: Entry)
    requires Fits(e) && e.recLen < TWO_16 && StandsAt(s, at, Head(e))
    ensures Get32(s, at) == e.inode && Get16(s, at + 4) == e.recLen && s[at + 6] == |e.name| && s[at + 7] == e.kind
  {
    var a, b, c := Le32(e.inode), Le16(e.recLen), [|e.name| as byte, e.kind];
    StandsParts(s, at, a + b, c);
    StandsParts(s, at, a, b);
    Field32(s, at, e.inode);
    Field16(s, at + 4, e.recLen);
    StandsByte(s, at + 6, c, 0);
    StandsByte(s, at + 6, c, 1);
  }

  lemma ParseRecord(s: seq<byte>, at: nat, e: Entry)
    requires Fits(e) && e.recLen < TWO_16 && StandsAt(s, at, Record(e))
    ensures at + e.recLen <= |s|
    ensures Parse(s, at) == var rest := Parse(s, at + e.recLen); if rest.None? then None else Some([e] + rest.value)
  {
    hide Get16, Get32, Head;
    StandsParts(s, at, Head(e) + e.name, Zeros(e.recLen - 8 - |e.name|));
    StandsParts(s, at, Head(e), e.name);
    HeadFields(s, at, e);
  }

  lemma {:induction false} ParseFrom(es: seq<Entry>, s: seq<byte>, k: nat)
    requires AllFit(es) && s == Image(es) && k <= |es|
    requires forall i | 0 <= i < |es| :: es[i].recLen < TWO_16
    ensures Total(es[..k]) <= |s| && Parse(s, Total(es[..k])) == Some(es[k..])
    decreases |es| - k
  {
    hide Parse, Record;
    ImagePart(es, k);
    if k == |es| {
      assert es[..k] == es && es[k..] == [];
      ParseEnd(s);
    } else {
      var e := es[k];
      assert es[..k + 1][..k] == es[..k];
      ImageHas(es, k);
      ParseRecord(s, Total(es[..k]), e);
      ParseFrom(es, s, k + 1);
      assert [e] + es[k + 1..] == es[k..];
    }
  }

  lemma ParseEnd(s: seq<byte>)
    ensures Parse(s, |s|) == Some([])
  {
  }

  lemma {:induction false} ImagePart(es: seq<Entry>, k: nat)
    requires AllFit(es) && k <= |es|
    ensures AllFit(es[..k]) && Image(es[..k]) <= Image(es)
  {
    if k < |es| {
      var init := es[..|es| - 1];
      ImagePart(init, k);
      assert init[..k] == es[..k];
    } else {
      assert es[..k] == es;
    }
  }

  lemma ImageHas(es: seq<Entry>, k: nat)
    requires AllFit(es) && k < |es|
    ensures StandsAt(Image(es), Total(es[..k]), Record(es[k]))
  {
    hide Record;
    ImagePart(es, k + 1);
    assert es[..k + 1][..k] == es[..k];
    StandsBehind(Image(es), Image(es[..k]), Record(es[k]));
  }

  lemma StandsBehind(s: seq<byte>, a: seq<byte>, b: seq<byte>)
    requires a + b <= s
    ensures StandsAt(s, |a|, b)
  {
    assert s[|a|..|a| + |b|] == (a + b)[|a|..];
  }

  lemma {:induction false} ParsedIsShort(s: seq<byte>, at: nat)
    ensures Parse(s, at).Some? ==> forall i | 0 <= i < |Parse(s, at).value| :: Parse(s, at).value[i].recLen < TWO_16
    decreases |s| - at
  {
    if at + 8 <= |s| {
      var recLen, nameLen := Get16(s, at + 4), s[at + 6] as int;
      if 8 + nameLen <= recLen && at + recLen <= |s| {
        ParsedIsShort(s, at + recLen);
      }
    }
  }

  /** Following the record lengths gives back exactly the entries that were written, and ends exactly at
      the end, if and only if every length fits its 16 bits. */
  lemma ParseInvertsImage(es: seq<Entry>)
    requires AllFit(es)
    ensures Parse(Image(es), 0) == Some(es) <==> forall i | 0 <= i < |es| :: es[i].recLen < TWO_16
  {
    ParsedIsShort(Image(es), 0);
    if forall i | 0 <= i < |es| :: es[i].recLen < TWO_16 {
      assert es[..0] == [] && es[0..] == es;
      ParseFrom(es, Image(es), 0);
    }
  }
}
