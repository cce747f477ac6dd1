/** The loops of libcutils/strdup16to8.c and libcutils/strdup8to16.c. */
module JstringTool {
  import opened Common
  import opened Bytes
  import opened Jstring

  function UnitLength(u: unit16): (n: nat)
    ensures n == |EncodeUnit(u)|
  {
    if u > 0x7ff then 3 else if u > 0x7f || u == 0 then 2 else 1
  }

  lemma EncodePart(us: seq<unit16>, i: nat)
    requires i < |us|
    ensures Encode(us[..i + 1]) == Encode(us[..i]) + EncodeUnit(us[i])
  {
    assert us[..i + 1][..i] == us[..i];
  }

  lemma {:induction false} EncodeLength(us: seq<unit16>)
    ensures |us| <= |Encode(us)| <= 3 * |us|
  {
    if us != [] {
      EncodeLength(us[..|us| - 1]);
    }
  }

  lemma {:induction false} EncodeGrows(us: seq<unit16>, i: nat)
    requires i <= |us|
    ensures |Encode(us[..i])| <= |Encode(us)|
    decreases |us| - i
  {
    if i < |us| {
      EncodeGrows(us, i + 1);
      EncodePart(us, i);
    } else {
      assert us[..i] == us;
    }
  }

  /** strnlen16to8 with size_t running up to `max`: the exact length, or one less than the largest size_t
      when that is not representable. */
  method Strnlen16to8(us: seq<unit16>, max: nat) returns (n: nat)
    requires max >= 4 && |us| <= max
    ensures n == if |Encode(us)| < max then |Encode(us)| else max - 1
  {
    hide Encode, EncodeUnit;
    n := 0;
    EncodeNone(us);
    if |us| < (max - 1) / 3 {
      for i := 0 to |us|
        invariant n == |Encode(us[..i])|
      {
        EncodePart(us, i);
        n := n + UnitLength(us[i]);
      }
      assert us[..|us|] == us;
      EncodeLength(us);
      return;
    }
    for i := 0 to |us|
      invariant n == |Encode(us[..i])| <= max
    {
      EncodePart(us, i);
      var next := (n + UnitLength(us[i])) % (max + 1);
      SmallStep(n, UnitLength(us[i]), max);
      if next < n {
        EncodeGrows(us, i + 1);
        return max - 1;
      }
      n := next;
    }
    assert us[..|us|] == us;
    if n == max {
      n := max - 1;
    }
  }

  lemma EncodeNone(us: seq<unit16>)
    ensures Encode(us[..0]) == []
  {
  }

  /** Adding at most three wraps around exactly if the sum comes out smaller. */
  lemma SmallStep(n: nat, d: nat, max: nat)
    requires n <= max && 1 <= d <= 3 <= max
    ensures (n + d) % (max + 1) < n <==> n + d > max
    ensures n + d <= max ==> (n + d) % (max + 1) == n + d
  {
    if n + d > max {
      DivModUnique(1, n + d - max - 1, max + 1);
    } else {
      DivModUnique(0, n + d, max + 1);
    }
  }

  /** strncpy16to8 into a buffer of the length that strnlen16to8 gives, and one more. */
  method Strncpy16to8(dest: array<byte>, us: seq<unit16>)
    requires dest.Length == |Encode(us)| + 1
    modifies dest
    ensures dest[..] == Encode(us) + [0]
  {
    hide Encode;
    var cur := 0;
    EncodeNone(us);
    for i := 0 to |us|
      invariant cur == |Encode(us[..i])| && cur < dest.Length && dest[..cur] == Encode(us[..i])
    {
      EncodePart(us, i);
      EncodeGrows(us, i + 1);
      var u := us[i];
      if u > 0x7ff {
        dest[cur], dest[cur + 1], dest[cur + 2] := 0xe0 + u / 0x1000, 0x80 + u / 0x40 % 0x40, 0x80 + u % 0x40;
        cur := cur + 3;
      } else if u > 0x7f || u == 0 {
        dest[cur], dest[cur + 1] := 0xc0 + u / 0x40, 0x80 + u % 0x40;
        cur := cur + 2;
      } else {
        dest[cur] := u;
        cur := cur + 1;
      }
    }
    assert us[..|us|] == us;
    dest[cur] := 0;
  }

  /** strlen8to16. */
  method Strlen8to16(s: seq<byte>) returns (len: nat)
    ensures len == Counted(s, 0)
  {
    hide SeqLength;
    len := 0;
    var expected: int := 0;
    for i := 0 to |s|
      invariant len + Counted(s[i..], expected) == Counted(s, 0)
    {
      assert s[i..][1..] == s[i + 1..];
      if IsExtension(s[i]) {
        expected := expected - 1;
        if expected < 0 {
          len := len + 1;
        }
      } else {
        len := len + 1;
        expected := SeqLength(s[i]) - 1;
        if expected == 3 {
          len := len + 1;
        }
      }
    }
  }

  /** getUtf32FromUtf8, at place `p` of the string. */
  method GetUtf32(s: seq<byte>, p: nat) returns (code: nat, q: nat)
    requires p < |s|
    ensures p < q <= |s| && Read(code, s[q..]) == Next(s[p..])
  {
    hide SeqLength, Lead, Follow, Next;
    q := p + 1;
    NextIs(s, p);
    if IsExtension(s[p]) {
      return REPLACEMENT, q;
    }
    var n := SeqLength(s[p]);
    SeqLengthIs(s[p]);
    code := Lead(s[p]);
    for i := 1 to n
      invariant p < q <= |s| && Follow(s[q..], code, n - i) == Next(s[p..])
    {
      FollowStep(s, q, code, n - i);
      if q == |s| || !IsExtension(s[q]) {
        return REPLACEMENT, q;
      }
      code := code * 0x40 + s[q] % 0x40;
      q := q + 1;
    }
    FollowNone(code, s[q..]);
  }

  lemma NextIs(s: seq<byte>, p: nat)
    requires p < |s|
    ensures Next(s[p..]) ==
            if IsExtension(s[p]) then Read(REPLACEMENT as int, s[p + 1..])
            else Follow(s[p + 1..], Lead(s[p]), SeqLength(s[p]) - 1)
  {
    hide Follow, Lead, SeqLength;
    assert s[p..][1..] == s[p + 1..];
  }

  lemma FollowStep(s: seq<byte>, q: nat, code: nat, n: nat)
    requires q <= |s| && n > 0
    ensures Follow(s[q..], code, n) ==
            if q == |s| || !IsExtension(s[q]) then Read(REPLACEMENT as int, s[q..])
            else Follow(s[q + 1..], code * 0x40 + s[q] % 0x40, n - 1)
  {
    if q < |s| {
      assert s[q..][1..] == s[q + 1..];
    }
  }

  /** strcpy8to16 into a buffer of the length that strlen8to16 gives: it never runs past the end. */
  method Strcpy8to16(dest: array<unit16>, s: seq<byte>) returns (n: nat)
    requires dest.Length == Counted(s, 0)
    modifies dest
    ensures n <= dest.Length && dest[..n] == Decode(s)
  {
    hide Next, Counted;
    DecodeFits(s, 0);
    n := 0;
    var p := 0;
    assert s[0..] == s;
    while p < |s|
      invariant p <= |s| && n <= dest.Length && dest[..n] + Decode(s[p..]) == Decode(s)
      decreases |s| - p
    {
      var code, q := GetUtf32(s, p);
      ghost var rest := Decode(s[q..]);
      assert Decode(s[p..]) == Units(code) + rest;
      assert |dest[..n] + (Units(code) + rest)| <= dest.Length;
      assert dest[..n] + Units(code) + rest == Decode(s);
      ghost var before := dest[..n];
      if code <= 0xffff {
        dest[n] := code;
        n := n + 1;
      } else if code <= UPPER_LIMIT {
        dest[n], dest[n + 1] := 0xd800 + (code - 0x1_0000) / 0x400, 0xdc00 + (code - 0x1_0000) % 0x400;
        n := n + 2;
      } else {
        dest[n] := REPLACEMENT;
        n := n + 1;
      }
      assert dest[..n] == before + Units(code);
      p := q;
    }
  }
}
